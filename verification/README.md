# LVM2 metadata cache and configuration helpers, in Dafny

This project models two parts of LVM2.

**The lvmcache state machine** (`lib/cache/lvmcache.c`). LVM keeps an
in-memory index of what label scans found. It holds:

- device records ("infos"), indexed by PV id;
- VG records ("vginfos"), indexed by VG id, and by VG name through a
  same-name chain whose first entry is the primary record;
- the set of VG locks held, and the counters and flags `_vgs_locked`,
  `_found_duplicates`, `_scanning_in_progress` and `_has_scanned`.

The model is one immutable `Cache` record of Dafny maps and sequences:

- pointers become `nat` handles;
- a same-name chain is a `seq` of handles, primary first;
- the CACHE_INVALID and CACHE_LOCKED bits are two booleans.

Every operation is a pure transition from one cache value to the next. It
covers:

- lock ordering, and the lock and unlock bookkeeping with the invalidation
  it drives;
- record validity;
- the per-VG metadata cache: store, free, drop, commit, `get_vg` and holder
  release;
- duplicate-PV rejection in `lvmcache_add`;
- duplicate-VG-name precedence, chain lookup and removal with promotion;
- orphan retention;
- PV-id and VG-id rebinding;
- the re-entrancy guard of the label scan.

**Definition-driven configuration logic** (`lib/config/config.c`). These are
small pure parsers and validators:

- the decoder for the encoded default arrays of settings;
- the type check of a config node against its definition;
- the path builder for definition items;
- section merging;
- unlinking a tree from the cascade of config trees;
- the node filter for generated default trees;
- the unpacking and printing of packed `since_version` numbers.

Config values and nodes are datatypes. Each operation has a reference
definition or an inverse, and a lemma connects the two.

Modules, in dependency order:

- `Maybe`;
- `CacheTypes`, `Lookup`, `VgMetadata`, `LockOrder`, `LockState`, `Validity`;
- `MetadataOps`, `MetadataLemmas`;
- `VgIndex`, `PvIndex`, `VgnameUpdate`, `PvAdd`, `LabelScan`;
- `ConfigValues`, `Decimal`, `DefaultArray`, `NodeCheck`, `DefPath`;
- `SectionMerge`, `Cascade`, `DefTreeFilter`, `Version`.

The model takes these decisions:

- `lvmetad_active()` is false throughout.
- Identifiers are strings. The source's `ID_LEN`-bounded `strncpy` and
  `strncmp` are modelled by truncating every key to `ID_LEN` characters
  (`CacheTypes.IdKey`).
- A metadata text is an opaque string. A parsed config tree is recorded by
  the text it was parsed from.
- The outcomes of the format back-ends (export, parse, import, instance
  creation) are parameters.

## Model

| member | source | states |
|---|---|---|
| LockOrder.StrLessIffFirstDifferenceLess | lib/cache/lvmcache.c:528-546 | The recursive `strcmp(a, b) < 0` order agrees with the textbook definition: a is a proper prefix of b, or has the smaller character at the first difference |
| LockOrder.StrLessTrichotomy | lib/cache/lvmcache.c:528-546 | Two different names are ordered one way and never both ways |
| LockOrder.OrderCorrectByRank | lib/cache/lvmcache.c:528-546 | A lock may precede another exactly when the held one is the global lock, or has a lower rank (global, then ordinary, then orphan), or both are ordinary and in strcmp order |
| LockOrder.SameNameOrderCorrectIffGlobal | lib/cache/lvmcache.c:528-546 | Re-requesting a held name is an ordering violation for every name except the global lock |
| LockOrder.BothOrdersOnlyForGlobal | lib/cache/lvmcache.c:528-546 | Two names are acceptable in both orders only when both are the global lock, so two lockers cannot deadlock on a pair |
| LockOrder.OrderCorrectTransitive | lib/cache/lvmcache.c:528-546 | The lock order is transitive |
| LockOrder.VerifyLockOrder | lib/cache/lvmcache.c:551-578 | The check of a lock request passes exactly when every held lock may precede the requested one |
| LockOrder.OrphanRequestNeedsNoOrphanHeld | lib/cache/lvmcache.c:551-578 | An orphan lock may be requested exactly when no orphan lock is held |
| LockOrder.GlobalRequestNeedsOnlyGlobalHeld | lib/cache/lvmcache.c:551-578 | The global lock may be requested exactly when nothing but the global lock is held |
| LockOrder.NeighboursOrderedSuffices | lib/cache/lvmcache.c:551-578 | A sequence of lock requests each accepted against its predecessor is ordered pairwise |
| LockOrder.OrdinaryAcquisitionStrictlyIncreasing | lib/cache/lvmcache.c:551-578 | Accepted ordinary VG names are acquired in strictly increasing order, so no name is locked twice |
| LockState.UpdateMembersLockState | lib/cache/lvmcache.c:413-432 | Each listed member takes the new LOCKED bit and becomes INVALID when its bit flips while the global lock is not held; unlisted records are untouched; the flag reports whether any bit flipped |
| LockState.UpdateVgInfoLockState | lib/cache/lvmcache.c:434-446 | Every member's LOCKED bit equals `locked`; a member becomes INVALID, and the VG's cached metadata is freed, exactly when some LOCKED bit flipped without the global lock; no other INVALID bit and no other record changes |
| LockState.UpdateCacheLockState | lib/cache/lvmcache.c:448-456 | For a known name, the members of its primary record take the new LOCKED bit and turn INVALID exactly where the bit flipped without the global lock, the primary's cached metadata is freed exactly then, and every other device and VG record (the rest of the name's chain included) is unchanged; an unknown name changes nothing |
| LockState.LockVgname | lib/cache/lvmcache.c:580-598 | The name joins the lock set and a nested lock is reported; for any name but the global one the counter rises by one and the primary record is synced to LOCKED as in `UpdateCacheLockState` (invalidation and metadata freeing on a flip, every other record unchanged); the global lock and an unknown name change no device or VG record |
| LockState.UnlockVgname | lib/cache/lvmcache.c:608-622 | The name leaves the lock set and unlocking an unlocked name is reported; for any name but the global one the primary record is synced to unlocked as in `UpdateCacheLockState`, the counter drops and devices close exactly when it reaches zero; the global lock and an unknown name change no device or VG record |
| Lookup.InfoFromPvid | lib/cache/lvmcache.c:830-848 | A device record is found exactly when the truncated PV id is indexed and points at a record |
| Lookup.VgInfoFromVgid | lib/cache/lvmcache.c:745-765 | A VG record is found exactly when an id is given and its truncated form is indexed; a NULL id finds nothing |
| Lookup.FindInChain | lib/cache/lvmcache.c:650-678 | The chain walk returns the first entry carrying the VG id, and nothing exactly when no entry carries it |
| Lookup.VgInfoFromVgname | lib/cache/lvmcache.c:650-678 | Without a name the lookup is by id; with a name alone it returns the primary; with a name and an id it returns only a chain member carrying that id, or nothing when no chain member carries it |
| Validity.VgInfoIsValid | lib/cache/lvmcache.c:802-812 | The loop reports a VG valid exactly when every member is valid |
| Validity.VgInfoIsInvalid | lib/cache/lvmcache.c:815-824 | The loop reports a VG invalid exactly when no member is valid |
| Validity.InfoFromPvidChecked | lib/cache/lvmcache.c:830-848 | With `valid_only`, a record is returned only when it is valid, and an indexed record is withheld only for being invalid |
| Validity.ValidAndInvalidExclusive | lib/cache/lvmcache.c:781-824 | A VG with a known member is never both all-valid and all-invalid; a VG without members is both |
| Validity.SyncedMembersValidIffNotInvalid | lib/cache/lvmcache.c:781-800 | Once a VG's records are synced with its lock state, a member is valid exactly when its INVALID bit is clear |
| VgMetadata.HoldersDecAndTest | lib/cache/lvmcache.c:1049-1071 | The result is true exactly when one holder was left; then the cached VG object is detached; otherwise the object stays and the unsigned count drops by one, wrapping from zero |
| VgMetadata.FreeCachedVgMetadata | lib/cache/lvmcache.c:350-368 | Afterwards no text is cached, and the tree goes with the text; without a cached text nothing changes; members, name and id are kept |
| VgMetadata.StoreBlob | lib/cache/lvmcache.c:373-411 | An identical text keeps the cached text, tree and object; a different one replaces the text and discards the tree; a failed export frees everything; `precommitted` takes the argument; the tree always belongs to the cached text |
| VgMetadata.StoreMetadata | lib/cache/lvmcache.c:373-411 | The record indexed under the VG id takes the exported text and the precommitted flag (a failed export leaves it without text), keeps its members, name and id and keeps its tree tied to its text; every other record and the rest of the cache are unchanged; without such a record nothing changes |
| VgMetadata.ReleaseVg | lib/cache/lvmcache.c:1049-1071 | Without a cached VG object nothing changes; with one, the last holder's release detaches it and leaves no holders, an earlier one keeps it with one holder fewer; nothing else in the record changes |
| MetadataOps.ReleaseCachedVg | lib/cache/lvmcache.c:1049-1071 | Releasing a record's cached VG object drops one holder and detaches the object when the last holder goes; a record without a cached object, every other record and the rest of the cache are unchanged |
| MetadataOps.InvalidateMembers | lib/cache/lvmcache.c:458-485 | Exactly the listed device records get the INVALID bit |
| MetadataOps.DropRecordMetadata | lib/cache/lvmcache.c:458-485 | The record is left without text and tree, releases its cached VG object when it had a text (one holder fewer, detached at the last), and keeps every other field; its precommitted flag is cleared exactly when precommitted metadata is dropped; each member's INVALID bit is set exactly when precommitted metadata is dropped or none was cached, and nothing else about it changes; every other device and VG record is unchanged; the error flag is raised exactly when live metadata goes while precommitted state is pending without text |
| MetadataOps.DropMetadata | lib/cache/lvmcache.c:458-485 | For a known name, the primary record's metadata is dropped with the same text, tree, object release, precommitted and INVALID rules as `DropRecordMetadata`, its other fields are kept, and every other record (the rest of the chain included) is unchanged; an unknown name changes nothing and raises no error |
| MetadataOps.DropMetadataByName | lib/cache/lvmcache.c:506-521 | Nothing happens under the global lock without a VG write lock; otherwise an ordinary name drops the metadata of its primary record; locks, name index and the set of VG records stay |
| MetadataOps.CommitMetadata | lib/cache/lvmcache.c:492-504 | Commit clears only the precommitted flag; text, tree and object stay |
| MetadataOps.ServeRecord | lib/cache/lvmcache.c:1003-1046 | A still-good cached object is returned as the same object with holders and use count one higher; otherwise a new object is built and ends with two holders; a failed build wipes the cached metadata |
| MetadataOps.GetVg | lib/cache/lvmcache.c:959-1046 | NULL when there is no id, no record or no text, when the record is invalid, when precommitted metadata is asked for but not cached, or when live metadata is asked for while precommitted metadata is cached outside a critical section; otherwise the record is served |
| MetadataLemmas.PrecommitThenCommit | lib/cache/lvmcache.c:492-504 | Storing a precommitted text and committing it leaves the same text cached as live |
| MetadataLemmas.StoreThenRevert | lib/cache/lvmcache.c:458-485 | Storing a text and then reverting leaves no text and no tree |
| MetadataLemmas.PrecommittedServedOnlyAfterCommit | lib/cache/lvmcache.c:981-1001 | With precommitted metadata cached for a valid VG, a precommitted request is served and a live one refused; after the commit the live request is served |
| MetadataLemmas.RepeatedGetVgSharesObject | lib/cache/lvmcache.c:1003-1016 | While the cached object stays good, n get_vg calls all return that same object and raise holders and use count by n |
| MetadataLemmas.ObjectDetachedOnlyAfterAllReleases | lib/cache/lvmcache.c:1049-1071 | With h holders the cached object survives h - 1 releases and is detached by the h-th |
| VgIndex.PrecedenceRules | lib/cache/lvmcache.c:1390-1472 | A newcomer heads the chain exactly under one of three rules (exported primary against unexported newcomer; primary without creation host against newcomer with one; newcomer created here), unless a keep rule fires first |
| VgIndex.ExportedNewcomerNeverWins | lib/cache/lvmcache.c:1390-1472 | An unexported primary is never displaced by an exported newcomer |
| VgIndex.InsertVgInfo | lib/cache/lvmcache.c:1390-1472 | A record joins the chain of its name: alone when there is no primary, at the head followed by the old chain when it wins, at the tail when it loses |
| VgIndex.InsertedPrimary | lib/cache/lvmcache.c:1390-1472 | After joining a non-empty chain the newcomer is the primary exactly when it takes precedence |
| VgIndex.InsertKeepsChainsWf | lib/cache/lvmcache.c:1390-1472 | Inserting a record new to the cache keeps the name index consistent |
| VgIndex.FreeVgInfo | lib/cache/lvmcache.c:1262-1300 | The record leaves its chain, the VG list and the record map, and every other name's chain is unchanged; in the VG-id index its own key is removed exactly when that key maps to it and the id is non-empty, and every other key keeps its entry |
| VgIndex.FreePromotesNext | lib/cache/lvmcache.c:1262-1300 | Freeing a primary with successors makes the old second entry the answer to a name lookup |
| VgIndex.FreeUndoesInsert | lib/cache/lvmcache.c:1262-1300 | Freeing a just-inserted record restores the name index as it was |
| VgIndex.FreeKeepsChainsWf | lib/cache/lvmcache.c:1262-1300 | Freeing a record keeps the name index consistent |
| VgIndex.Detach | lib/cache/lvmcache.c:639-647 | The device record leaves its VG's member list and points at no VG |
| VgIndex.Attach | lib/cache/lvmcache.c:629-637 | The device record points at the VG and is the last of its members |
| VgIndex.DetachKeepsMembershipWf | lib/cache/lvmcache.c:639-647 | Detaching keeps device records and VG records in agreement |
| VgIndex.AttachKeepsMembershipWf | lib/cache/lvmcache.c:629-637 | Attaching a detached record keeps device records and VG records in agreement |
| VgIndex.DropVgInfo | lib/cache/lvmcache.c:1305-1319 | The device record points at no VG and every other device record is unchanged; an orphan VG record survives, any other named record is removed exactly when it has no member left after the detach, and every other VG record survives with only its member list touched |
| VgIndex.OrphanRecordsSurviveDrop | lib/cache/lvmcache.c:1305-1319 | An orphan VG record survives dropping even without members; any other record is removed exactly when no member is left |
| VgIndex.DropKeepsMembershipWf | lib/cache/lvmcache.c:1305-1319 | Dropping keeps device records and VG records in agreement |
| PvIndex.UpdatePvid | lib/cache/lvmcache.c:1335-1353 | Nothing changes when the record is already indexed under the id and its device carries it; otherwise the device's old id leaves the index and the new id maps to the record |
| PvIndex.UpdatePvidThenLookup | lib/cache/lvmcache.c:1335-1353 | After rebinding, a lookup by the new id finds the record |
| PvIndex.UpdatePvidKeepsOtherDevices | lib/cache/lvmcache.c:1335-1353 | Rebinding leaves the id of every other device alone |
| PvIndex.UpdatePvidIdempotent | lib/cache/lvmcache.c:1335-1353 | Rebinding to the same id twice is the same as once |
| PvIndex.UpdateVgid | lib/cache/lvmcache.c:1358-1388 | Without an id or a record, or when the ids agree on ID_LEN characters, nothing changes; otherwise the record is re-keyed under the truncated new id |
| PvIndex.UpdateVgStatus | lib/cache/lvmcache.c:1615-1666 | The VG record takes the EXPORTED bit of the status word (the only bit modelled); a supplied creation host or lock type replaces the recorded one and an absent one keeps it |
| PvIndex.UpdateVgStatusIdempotent | lib/cache/lvmcache.c:1615-1666 | Copying the same status twice is the same as once |
| PvIndex.UpdateVgMdaInfo | lib/cache/lvmcache.c:1668-1686 | As written: the checksum and size pair is replaced only when both differ, never without a VG or for size zero |
| PvIndex.MdaPairNeverMixed | lib/cache/lvmcache.c:1668-1686 | The recorded pair is always either the old pair or the new one, so a new checksum with an unchanged size is lost |
| VgnameUpdate.MoveMembersEmptiesSource | lib/cache/lvmcache.c:1554-1567 | Moving all members of a VG record to another leaves it without members, every moved record in the target, and records and VGs in agreement |
| VgnameUpdate.SurvivingPrimaryRetested | lib/cache/lvmcache.c:1544-1571 | An orphan VG primary without members, invalid during a scan, is left unchanged by a round of the clean-up loop and still satisfies the loop condition |
| VgnameUpdate.RemoveInvalidPrimaries | lib/cache/lvmcache.c:1544-1571 | Outside a scan nothing changes; during a scan only records and VG records are rearranged and none appears |
| VgnameUpdate.RemoveInvalidPrimariesExit | lib/cache/lvmcache.c:1544-1571 | When the clean-up succeeds, a primary left behind has a valid member, or is an orphan VG, or kept members |
| VgnameUpdate.RemoveInvalidPrimariesKeepsWf | lib/cache/lvmcache.c:1544-1571 | The clean-up keeps records, VGs and the name index consistent |
| VgnameUpdate.FindOrCreateVg | lib/cache/lvmcache.c:1491-1587 | A record carrying the name and id is reused unchanged; otherwise a found or created record is one of the cache's VG records |
| VgnameUpdate.FoundVgNamed | lib/cache/lvmcache.c:1491-1587 | The record found or created for a name carries that name |
| VgnameUpdate.UpdateVgname | lib/cache/lvmcache.c:1474-1613 | Without a name, or when the record is already in a VG of that name, nothing changes; on success the device record is in a VG, and after a move that VG carries the given format and all its members carry the LOCKED bit of the name's lock |
| VgnameUpdate.UpdateVgnamePlacesRecord | lib/cache/lvmcache.c:1474-1613 | With a consistent name index, a successful update leaves the device record in a VG record of the requested name |
| VgnameUpdate.JoinVg | lib/cache/lvmcache.c:1589-1597 | The device record joins the VG's members, every member's LOCKED bit follows the lock of the name, and the VG record takes the format; no VG record is renamed or created |
| VgnameUpdate.LockStateKeepsMembership | lib/cache/lvmcache.c:434-446 | Syncing lock bits moves no record between VGs and renames nothing |
| PvAdd.MarkForMoveEffect | lib/cache/lvmcache.c:1716-1724 | A PV moving from a real VG to an orphan VG marks that VG's cached object invalidated and keeps its own record; a PV moving into a real VG has its INVALID bit cleared |
| PvAdd.UpdateVgnameAndId | lib/cache/lvmcache.c:1698-1734 | Filing a record under a VG leaves the PV index, the devices, their ids and the duplicates flag as they were, and creates or removes no device record |
| PvAdd.CriticalOrphaningSkipped | lib/cache/lvmcache.c:1710-1714 | Inside a critical section a PV without metadata areas in a real VG is not orphaned: success with no change |
| PvAdd.CopySummaryEffect | lib/cache/lvmcache.c:1726-1730 | Afterwards the record's VG is indexed under the summary's truncated id and carries its exported status and any creation host it names |
| PvAdd.Add | lib/cache/lvmcache.c:1782-1891 | A PV id already on another device yields NULL, raises the duplicates flag and changes nothing else; any other label leaves the flag alone; a returned record exists in the cache |
| PvAdd.DuplicateIgnored | lib/cache/lvmcache.c:1807-1831 | A label whose PV id is on another device changes nothing but the duplicates flag, which only a duplicate raises |
| PvAdd.SameDeviceReusesRecord | lib/cache/lvmcache.c:1826-1870 | A label seen again on the device that carries the PV reuses the existing record and creates no new one |
| PvAdd.AddedRecordIndexed | lib/cache/lvmcache.c:1782-1891 | A recorded label is found again under its PV id, on the device it came from |
| PvAdd.FailedNewRecordForgotten | lib/cache/lvmcache.c:1872-1888 | A new record that could not be filed leaves no record, device link or index entry behind, and the device carries no PV id |
| LabelScan.Scan | lib/cache/lvmcache.c:893-957 | A call during a scan fails at once and changes nothing; otherwise no scan is in progress afterwards; success and an earlier scan both leave the cache marked as scanned |
| LabelScan.FullScanReadsAll | lib/cache/lvmcache.c:893-957 | A successful first or full scan takes over what reading every device found |
| Decimal.DigitsRoundTrip | lib/config/config.c:1254-1256 | Reading back the decimal digits of a number gives the number |
| Decimal.StrtollReadsIntText | lib/config/config.c:1254-1256 | `strtoll` in base 10 reads the decimal text of any integer in range back as that integer and consumes all of it |
| Decimal.Strtoll | lib/config/config.c:1254-1256 | The value lies within the 64-bit limits; a parse that consumes nothing gives 0; a parse that consumes something ends on a digit |
| DefaultArray.SplitEscaped | lib/config/config.c:1231-1239 | Reading an item whose '#' characters are doubled, followed by a lone '#' and the next item, gives back the original text and the next item |
| DefaultArray.DecodeDefault | lib/config/config.c:1202-1291 | No default gives one empty-array value; an encoding that is empty, lacks the leading '#', is a lone '#', or whose first item is rejected gives NULL; a decoded list is non-empty, holds no empty array, and starts with the first item's value |
| DefaultArray.ItemValue | lib/config/config.c:1251-1277 | A letter other than I, B, F or S (in either case) is rejected; an integer item is accepted exactly when strtoll consumes its whole text and then carries that number; a float item exactly when strtod does; a string item always, with its text |
| DefaultArray.DecodeItems | lib/config/config.c:1225-1281 | An empty item list or a rejected first item gives NULL; a decoded list is non-empty, holds no empty array, and starts with the first item's value |
| DefaultArray.DecodeItemsEncode | lib/config/config.c:1202-1291 | Decoding the items of an encoded value list gives back the list |
| DefaultArray.DecodeEncode | lib/config/config.c:1202-1291 | Encoding then decoding a non-empty list of ints, floats and strings gives back the list, whatever '#' the strings contain |
| DefaultArray.LetterCaseIgnored | lib/config/config.c:1251 | The type letter is read case-insensitively |
| NodeCheck.CheckSingleValue | lib/config/config.c:535-585 | Every accepted value is held by some declared type, and every held value is accepted except a non-boolean string under a boolean definition; each rejection names its true cause |
| NodeCheck.CheckNodeValue | lib/config/config.c:587-613 | A node passes exactly when it has no value and is declared a section only, or its values are all accepted and several values come with the array type |
| NodeCheck.AcceptedNodeValuesHeld | lib/config/config.c:587-613 | Every value of an accepted node is held by one of the declared types |
| DefPath.MakePath | lib/config/config.c:482-501 | The path left in the buffer is empty or shorter than the buffer |
| DefPath.MakePathFits | lib/config/config.c:482-501 | A path that fits in the buffer is the full "/"-joined path of ancestor names, with "#" for variable names |
| DefPath.MakePathSuffix | lib/config/config.c:482-501 | Whatever the buffer size, the result is a trailing part of the full path |
| SectionMerge.FindIndex | lib/config/config.c:970-1010 | The first child with the key, and none exactly when no child has it |
| SectionMerge.MergeSection | lib/config/config.c:970-1010 | The merged section has at least as many children as before and gains at most one per incoming node; `MergeKeepsKeys` states that no old key is lost |
| SectionMerge.MergeSectionLookup | lib/config/config.c:970-1010 | After merging, every key maps to the values the reference replay of the new section's leaves gives: replaced, inserted, joined new-then-old, or untouched |
| SectionMerge.UntouchedKeyKept | lib/config/config.c:970-1010 | A key the new section does not touch keeps its old values |
| SectionMerge.LastTouchWins | lib/config/config.c:970-1010 | In raw mode a key the new section sets ends with the values of its last setting |
| SectionMerge.MergeKeepsKeys | lib/config/config.c:970-1010 | No key of the old section is lost |
| Cascade.FirstOfSource | lib/config/config.c:278-291 | The position of the first tree of the source, and none exactly when no tree has it |
| Cascade.RemoveBySourceAsWritten | lib/config/config.c:271-294 | As written: a tree is returned exactly when one of the source exists, and without one the cascade is unchanged |
| Cascade.AsWrittenDropsHead | lib/config/config.c:279-285 | With string, profile and file trees, unlinking the file tree leaves only the profile tree |
| Cascade.RemoveBySource | lib/config/config.c:271-294 | The first tree of the source is returned and the cascade is one shorter; without such a tree nothing changes |
| Cascade.RemoveBySourceUndone | lib/config/config.c:271-294 | Putting the returned tree back at its position restores the cascade |
| Cascade.RemoveBySourceKeepsOthers | lib/config/config.c:271-294 | Every other tree stays in the cascade and the removed one leaves it |
| Cascade.AsWrittenAgreesNearHead | lib/config/config.c:271-294 | The written and corrected unlink agree when the match is the head or the second tree |
| DefTreeFilter.ShouldSkip | lib/config/config.c:1359-1396 | Parent, advanced and unsupported filters skip; a new-items tree keeps exactly the items of its version; a missing-items tree without check status keeps nothing; other kept items are no newer than the version; profilable trees keep only profilable items; missing-items trees keep only unused, non-variable items; conversely an item that passes the filters is kept exactly when its tree kind wants it (`Wanted`: unused, fixed-name and not newer for a missing-items tree with a status, profilable and not newer for a profilable tree, not newer for any other tree) |
| DefTreeFilter.KeptByOrdinaryTree | lib/config/config.c:1359-1396 | Every item a special tree keeps is also kept by an ordinary tree of the same version |
| DefTreeFilter.KeptAtLaterVersion | lib/config/config.c:1359-1396 | An item kept for a version stays kept for later versions |
| Version.Unpack | lib/config/config.c:1123-1128 | Every 16-bit value unpacks to a major number up to 7, a minor up to 15 and a patch level up to 511 |
| Version.MasksAreDivisions | lib/config/config.c:1123-1128 | The masks and shifts on 16 bits equal the division and remainder the model uses |
| Version.UnpackPack | lib/config/config.c:1123-1128 | Unpacking undoes packing |
| Version.PackUnpack | lib/config/config.c:1123-1128 | Packing undoes unpacking, so unpacking is a bijection onto the versions in range |
| Version.VersionText | lib/config/config.c:1097-1128 | The printed version always fits the 9-byte buffer, in at most 8 characters |

## Left out

- lvmetad: every path guarded by `lvmetad_active()` takes the inactive branch; the lvmetad client is not part of this model.
- Device and label I/O, filters and format scan hooks: `LabelScan.Scan` takes the caches that the reads leave as values, and the outcomes of the hooks as flags.
- Format back-ends (export, parse, import, instance creation) and `dm_pool` locking: their outcomes are parameters of `MetadataOps.GetVg` and `VgMetadata.StoreBlob`.
- Allocation failures and log output are not modelled.
- Float parsing (`strtod`) is the parameter `floatOk` of `DefaultArray.DecodeDefault`: a float token is kept as text.
- Whether a string is a boolean literal (`dm_config_value_is_bool`) is the parameter `isBool` of `NodeCheck.CheckSingleValue`.
- Config lookups by path go to the first child with the key; keys containing "/" are not split.
- NUL characters inside strings are not modelled; C string functions stop at them.
- Profiles, host tags and the rest of `merge_config_tree` around `_merge_section` are not modelled.
- VgnameUpdate.RemoveInvalidPrimaries: when a primary survives its round of the clean-up loop (an orphan VG, or one that kept members) the model stops; the source tests the loop condition again, and `SurvivingPrimaryRetested` shows a case where it holds again for the same, unchanged record. Whether callers can reach that case is not modelled.
- VgMetadata.ReleaseVg: release_vg belongs to lib/metadata/metadata.c, which is not part of this model; only its effect on the cache (`HoldersDecAndTest`) is modelled, by `ReleaseVg` and `MetadataOps.ReleaseCachedVg`.
- LockOrder.VerifyLockOrder: the source fails the check when the lock table was never created (lib/cache/lvmcache.c:556-557); the model has no uninitialised lock table.
- PvIndex.UpdateVgStatus: the source stores the whole status word (lib/cache/lvmcache.c:1626); the model keeps only its EXPORTED bit.
- PvIndex.UpdatePvid: the id is taken as the caller's already truncated copy; the allocation failure of the index insert is not modelled.
- PvAdd.Add: its contract does not say which VG a successful label joins; `AddedRecordIndexed` and `SameDeviceReusesRecord` state the index part.
- PvAdd.UpdateVgnameAndId: its contract states only that the PV index and devices are kept; `CopySummaryEffect` and `CriticalOrphaningSkipped` state the VG part.
- MetadataOps.DropMetadataByName: the contract does not state the VG_ORPHANS case, which drops the metadata of the three orphan VGs.
- VgnameUpdate.UpdateVgname: the contract does not name the VG record the device is filed under; that needs a consistent name index, and `UpdateVgnamePlacesRecord` states it under one.
- VgnameUpdate.FindOrCreateVg: the contract does not state the precedence of a created record in its chain; `VgIndex.InsertedPrimary` states it.
- DefPath.MakePath: the returned length is the length of the modelled string; a negative `dm_snprintf` result is not distinguished from a short buffer.
- Version.VersionText: the text is not parsed back; only its length bound is stated.

## Findings

| source | as written | input that shows it | evidently intended | confidence | as-written member | corrected member |
|---|---|---|---|---|---|---|
| lib/config/config.c:279-285 | a match that has a predecessor makes that predecessor the new head of the cascade | cascade [string tree, profile tree, file tree], remove the file source: the cascade becomes [profile tree] and the string tree is lost | only the matched tree leaves; all other trees stay in order | medium, not executed | Cascade.AsWrittenDropsHead | Cascade.RemoveBySource |
