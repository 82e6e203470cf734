/**
 * The per-VG metadata cache of lib/cache/lvmcache.c at the level of one VG
 * record: holder release, wiping the cached metadata, and storing a new
 * metadata text.
 *
 * The metadata text is an opaque string; the parsed config tree is recorded
 * by the text it was built from, so "the tree belongs to the blob" can be
 * stated and kept.
 */
module VgMetadata {
  import opened Maybe
  import opened CacheTypes
  import opened Lookup

  /** The config tree exists only alongside the metadata text it was parsed from. */
  predicate TreeTiedToBlob(v: VgInfo) {
    v.cft.Some? ==> v.metadata.Some? && v.cft.value.source == v.metadata.value
  }

  /**
   * lvmcache_vginfo_holders_dec_and_test_for_zero: drop one holder of the
   * cached VG object; when none remain, the object is detached.  The counter
   * is unsigned, so decrementing zero wraps.
   */
  function HoldersDecAndTest(v: VgInfo): (r: (VgInfo, bool))
    requires v.cachedVg.Some?
    ensures r.1 <==> v.holders == 1
    ensures r.1 ==> r.0.cachedVg.None? && r.0.holders == 0
    ensures !r.1 ==> r.0.cachedVg == v.cachedVg
    ensures !r.1 ==> (if v.holders == 0 then r.0.holders == U32 - 1 else r.0.holders + 1 == v.holders)
    ensures r.0 == v.(holders := r.0.holders, cachedVg := r.0.cachedVg)
  {
    var h := (v.holders - 1) % U32;
    if h != 0 then (v.(holders := h), false)
    else (v.(holders := 0, cachedVg := None), true)
  }

  /** release_vg on the VG object cached in the record (a no-op when none is). */
  function ReleaseVg(v: VgInfo): (r: VgInfo)
    ensures v.cachedVg.None? ==> r == v
    ensures v.cachedVg.Some? && v.holders == 1 ==> r.cachedVg.None? && r.holders == 0
    ensures v.cachedVg.Some? && v.holders > 1 ==> r.cachedVg == v.cachedVg && r.holders == v.holders - 1
    ensures r.cachedVg.Some? ==> r.cachedVg == v.cachedVg
    ensures r == v.(holders := r.holders, cachedVg := r.cachedVg)
  {
    if v.cachedVg.None? then v else HoldersDecAndTest(v).0
  }

  /**
   * _free_cached_vgmetadata: wipe the metadata text together with its tree and
   * release the cached VG object.  Nothing happens when no text is cached.
   */
  function FreeCachedVgMetadata(v: VgInfo): (r: VgInfo)
    ensures r.metadata.None?
    ensures TreeTiedToBlob(v) ==> r.cft.None? && TreeTiedToBlob(r)
    ensures v.metadata.None? ==> r == v
    ensures v.metadata.Some? ==> r == ReleaseVg(v).(metadata := None, cft := None)
    ensures r.members == v.members && r.name == v.name && r.vgid == v.vgid
  {
    if v.metadata.None? then v
    else ReleaseVg(v.(metadata := None, cft := None))
  }

  /**
   * _store_metadata once the record is found: `data` is the exported text,
   * None when exporting failed.  An identical text keeps the cached text, tree
   * and VG object; a different one replaces the text and discards the rest.
   */
  function StoreBlob(v: VgInfo, data: Option<string>, precommitted: bool): (r: VgInfo)
    ensures data.None? ==> r == FreeCachedVgMetadata(v)
    ensures data.Some? ==> r.metadata == data && r.precommitted == precommitted
    ensures data.Some? && v.metadata == data ==> r == v.(precommitted := precommitted)
    ensures data.Some? && v.metadata != data && TreeTiedToBlob(v) ==> r.cft.None?
    ensures data.Some? && v.metadata != data ==>
              r == FreeCachedVgMetadata(v).(metadata := data, precommitted := precommitted)
    ensures TreeTiedToBlob(v) ==> TreeTiedToBlob(r)
    ensures r.members == v.members && r.name == v.name && r.vgid == v.vgid
  {
    if data.None? then FreeCachedVgMetadata(v)
    else if v.metadata == data then v.(precommitted := precommitted)
    else FreeCachedVgMetadata(v).(metadata := data, precommitted := precommitted)
  }

  /**
   * _store_metadata: cache the exported text of a VG against the record that
   * carries its identifier.  Without such a record nothing changes; with one,
   * that record alone takes the text (or loses its text when exporting
   * failed) and the precommitted flag, and keeps its members, name and
   * identifier.
   */
  function StoreMetadata(c: Cache, vgid: string, data: Option<string>, precommitted: bool): (c': Cache)
    ensures c'.vginfos.Keys == c.vginfos.Keys
    ensures VgInfoFromVgid(c, Some(vgid)).None? ==> c' == c
    ensures VgInfoFromVgid(c, Some(vgid)).Some? ==>
              var v := VgInfoFromVgid(c, Some(vgid)).value;
              && v == c.vgidIndex[IdKey(vgid)]
              && (data.Some? ==> c'.vginfos[v].metadata == data && c'.vginfos[v].precommitted == precommitted)
              && (data.None? ==> c'.vginfos[v].metadata.None?)
              && (TreeTiedToBlob(c.vginfos[v]) ==> TreeTiedToBlob(c'.vginfos[v]))
              && c'.vginfos[v].members == c.vginfos[v].members
              && c'.vginfos[v].name == c.vginfos[v].name && c'.vginfos[v].vgid == c.vginfos[v].vgid
    ensures forall w | w in c.vginfos && Some(w) != VgInfoFromVgid(c, Some(vgid)) :: c'.vginfos[w] == c.vginfos[w]
    ensures c' == c.(vginfos := c'.vginfos)
  {
    match VgInfoFromVgid(c, Some(vgid))
    case None => c
    case Some(v) => c.(vginfos := c.vginfos[v := StoreBlob(c.vginfos[v], data, precommitted)])
  }
}
