/**
 * Precommit / commit / revert and the reference-counted VG objects of
 * lib/cache/lvmcache.c, at the level of the whole cache.
 */
module MetadataOps {
  import opened Maybe
  import opened CacheTypes
  import opened Lookup
  import opened VgMetadata
  import opened LockState
  import opened Validity

  /** Every member record of `v` marked CACHE_INVALID; nothing else changes. */
  function InvalidateMembers(infos: map<InfoId, Info>, members: seq<InfoId>): (r: map<InfoId, Info>)
    ensures r.Keys == infos.Keys
    ensures forall i | i in infos && i in members :: r[i] == infos[i].(invalid := true)
    ensures forall i | i in infos && i !in members :: r[i] == infos[i]
    decreases |members|
  {
    if |members| == 0 then infos
    else
      var m := members[0];
      var infos1 := if m in infos then infos[m := infos[m].(invalid := true)] else infos;
      assert forall i :: i in members <==> i == m || i in members[1..];
      InvalidateMembers(infos1, members[1..])
  }

  /**
   * `c'` is `c` once the metadata of VG record `v` is dropped: the record
   * loses its text and the tree parsed from it and releases its cached VG
   * object (one holder fewer, detached at the last one) when it had a text,
   * its precommitted flag is cleared exactly when precommitted metadata is
   * dropped, its other fields are kept, and its members are marked INVALID
   * unless only the committed copy goes while a precommitted one is cached.  Every other device and VG record is as it
   * was.
   */
  predicate MetadataDropped(c: Cache, c': Cache, v: VgRef, dropPrecommitted: bool)
    requires v in c.vginfos
  {
    var vi := c.vginfos[v];
    && c'.infos.Keys == c.infos.Keys && c'.vginfos.Keys == c.vginfos.Keys
    && c'.vginfos[v].metadata.None?
    && (TreeTiedToBlob(vi) ==> c'.vginfos[v].cft.None?)
    && c'.vginfos[v].precommitted == (vi.precommitted && !dropPrecommitted)
    && c'.vginfos[v].members == vi.members && c'.vginfos[v].name == vi.name && c'.vginfos[v].vgid == vi.vgid
    && c'.vginfos[v] == WipedRecord(vi, dropPrecommitted)
    && (forall i | i in c.infos && i in vi.members ::
          c'.infos[i] == c.infos[i].(invalid := c.infos[i].invalid || dropPrecommitted || !vi.precommitted))
    && (forall i | i in c.infos && i !in vi.members :: c'.infos[i] == c.infos[i])
    && (forall w | w in c.vginfos && w != v :: c'.vginfos[w] == c.vginfos[w])
  }

  /**
   * _drop_metadata: the primary record of the name loses its cached text and
   * tree.  Its members are marked invalid unless precommitted metadata is kept
   * (they were invalidated before it was cached); a revert clears the
   * precommitted flag.  The boolean reports the internal error of dropping
   * live metadata while precommitted state was never committed or reverted.
   */
  function DropMetadata(c: Cache, name: string, dropPrecommitted: bool): (r: (Cache, bool))
    ensures Primary(c, name).None? ==> r == (c, false)
    ensures Primary(c, name).Some? ==>
              var v := Primary(c, name).value;
              && MetadataDropped(c, r.0, v, dropPrecommitted)
              && (r.1 <==> !dropPrecommitted && c.vginfos[v].precommitted && c.vginfos[v].metadata.None?)
    ensures r.0.vginfos.Keys == c.vginfos.Keys
    ensures r.0 == c.(infos := r.0.infos, vginfos := r.0.vginfos)
  {
    match VgInfoFromVgname(c, Some(name), None)
    case None => (c, false)
    case Some(v) => DropRecordMetadata(c, v, dropPrecommitted)
  }

  /** _drop_metadata once the primary record `v` is found. */
  function DropRecordMetadata(c: Cache, v: VgRef, dropPrecommitted: bool): (r: (Cache, bool))
    requires v in c.vginfos
    ensures MetadataDropped(c, r.0, v, dropPrecommitted)
    ensures r.0.vginfos[v] == WipedRecord(c.vginfos[v], dropPrecommitted)
    ensures r.1 <==> !dropPrecommitted && c.vginfos[v].precommitted && c.vginfos[v].metadata.None?
    ensures r.0 == c.(infos := r.0.infos, vginfos := r.0.vginfos)
  {
    var vi := c.vginfos[v];
    var internalError := !dropPrecommitted && vi.precommitted && vi.metadata.None?;
    (c.(infos := DroppedInfos(c.infos, vi, dropPrecommitted),
        vginfos := SetVgInfo(c.vginfos, v, WipedRecord(vi, dropPrecommitted))),
     internalError)
  }

  /**
   * The device records once the metadata of `vi` is dropped: its members are
   * marked invalid unless only the committed copy goes while a precommitted
   * one is cached.
   */
  function DroppedInfos(infos: map<InfoId, Info>, vi: VgInfo, dropPrecommitted: bool): (r: map<InfoId, Info>)
    ensures r.Keys == infos.Keys
    ensures forall i | i in infos && i in vi.members ::
              r[i] == infos[i].(invalid := infos[i].invalid || dropPrecommitted || !vi.precommitted)
    ensures forall i | i in infos && i !in vi.members :: r[i] == infos[i]
  {
    if dropPrecommitted || !vi.precommitted then InvalidateMembers(infos, vi.members) else infos
  }

  /** The VG record once its metadata is dropped. */
  function WipedRecord(vi: VgInfo, dropPrecommitted: bool): (r: VgInfo)
    ensures r.metadata.None? && (TreeTiedToBlob(vi) ==> r.cft.None?)
    ensures r.precommitted == (vi.precommitted && !dropPrecommitted)
    ensures r.members == vi.members && r.name == vi.name && r.vgid == vi.vgid
    ensures vi.metadata.None? ==> r == vi.(precommitted := r.precommitted)
    ensures vi.metadata.Some? ==> r == ReleaseVg(vi).(metadata := None, cft := None, precommitted := r.precommitted)
  {
    var vi' := FreeCachedVgMetadata(vi);
    if dropPrecommitted then vi'.(precommitted := false) else vi'
  }

  /**
   * lvmcache_drop_metadata: does nothing while the global lock is held
   * without a VG write lock; VG_ORPHANS drops the three orphan VGs' metadata
   * and keeps no precommitted state.
   */
  function DropMetadataByName(c: Cache, name: string, dropPrecommitted: bool, vgWriteLockHeld: bool): (c': Cache)
    ensures IsLocked(c, VG_GLOBAL) && !vgWriteLockHeld ==> c' == c
    ensures !(IsLocked(c, VG_GLOBAL) && !vgWriteLockHeld) && name != VG_ORPHANS ==>
              c' == DropMetadata(c, name, dropPrecommitted).0
    ensures c'.locks == c.locks && c'.nameIndex == c.nameIndex && c'.vginfos.Keys == c.vginfos.Keys
  {
    if IsLocked(c, VG_GLOBAL) && !vgWriteLockHeld then c
    else if name == VG_ORPHANS then
      var c1 := DropMetadata(c, FMT_TEXT_ORPHAN_VG_NAME, false).0;
      assert c1.locks == c.locks && c1.nameIndex == c.nameIndex && c1.vginfos.Keys == c.vginfos.Keys;
      var c2 := DropMetadata(c1, FMT_LVM1_ORPHAN_VG_NAME, false).0;
      assert c2.locks == c.locks && c2.nameIndex == c.nameIndex && c2.vginfos.Keys == c.vginfos.Keys;
      DropMetadata(c2, FMT_POOL_ORPHAN_VG_NAME, false).0
    else DropMetadata(c, name, dropPrecommitted).0
  }

  /**
   * lvmcache_commit_metadata: precommitted metadata of the primary record
   * becomes committed; the cached text, tree and object stay.
   */
  function CommitMetadata(c: Cache, name: string): (c': Cache)
    ensures Primary(c, name).None? ==> c' == c
    ensures Primary(c, name).Some? ==>
              var v := Primary(c, name).value;
              && c'.vginfos == c.vginfos[v := c.vginfos[v].(precommitted := false)]
              && !c'.vginfos[v].precommitted
    ensures c' == c.(vginfos := c'.vginfos)
  {
    match VgInfoFromVgname(c, Some(name), None)
    case None => c
    case Some(v) =>
      if c.vginfos[v].precommitted then c.(vginfos := c.vginfos[v := c.vginfos[v].(precommitted := false)])
      else c
  }

  /**
   * The collaborators lvmcache_get_vg consults: whether a critical section is
   * active (devices suspended), and whether creating the format instance,
   * parsing the text, importing the tree and locking the VG's memory pool
   * succeed.
   */
  datatype GetVgEnv = GetVgEnv(criticalSection: bool, instanceOk: bool, parseOk: bool,
                               importOk: bool, poolLockOk: bool)

  /** The record a get_vg call is about, when it has cached metadata text. */
  function CachedRecord(c: Cache, vgid: Option<string>): Option<VgRef> {
    match VgInfoFromVgid(c, vgid)
    case None => None
    case Some(v) => if c.vginfos[v].metadata.Some? then Some(v) else None
  }

  /** The cached metadata may be served for this request. */
  predicate Servable(c: Cache, v: VgRef, precommitted: bool, criticalSection: bool)
    requires v in c.vginfos
  {
    && AllMembersValid(c, v)
    && !(precommitted && !c.vginfos[v].precommitted)
    && !(!precommitted && c.vginfos[v].precommitted && !criticalSection)
  }

  /** One more holder and one more use of the cached VG object. */
  function Hold(vi: VgInfo): VgInfo {
    vi.(holders := (vi.holders + 1) % U32, useCount := (vi.useCount + 1) % U32)
  }

  /**
   * The part of lvmcache_get_vg after the record passed every check: share
   * the cached VG object if it is still good, otherwise release it and build
   * a new object (numbered `obj`) from the text, parsing the text first when
   * no tree is cached.  A failure after the format instance exists wipes the
   * cached metadata.  Building leaves the holder count at 2: one for the
   * cache, one for the caller.
   */
  function ServeRecord(vi: VgInfo, obj: ObjId, env: GetVgEnv): (r: (VgInfo, Option<ObjId>))
    requires vi.metadata.Some?
    ensures vi.cachedVg.Some? && !vi.cachedVgInvalidated ==> r == (Hold(vi), vi.cachedVg)
    ensures !(vi.cachedVg.Some? && !vi.cachedVgInvalidated) && r.1.Some? ==>
              && r.1 == Some(obj) && r.0.cachedVg == Some(obj)
              && r.0.holders == 2 && r.0.useCount == 1 && !r.0.cachedVgInvalidated
              && r.0.metadata == vi.metadata
              && r.0.cft == (if vi.cft.Some? then vi.cft else Some(ParsedTree(vi.metadata.value)))
    ensures r.1.Some? ==> r.0.cachedVg == r.1 && r.0.metadata == vi.metadata
    ensures r.1.None? && env.instanceOk ==> r.0.metadata.None?
    ensures TreeTiedToBlob(vi) ==> TreeTiedToBlob(r.0)
    ensures r.0.members == vi.members && r.0.name == vi.name && r.0.vgid == vi.vgid
  {
    if vi.cachedVg.Some? && !vi.cachedVgInvalidated then (Hold(vi), vi.cachedVg)
    else
      var v1 := ReleaseVg(vi);
      if !env.instanceOk then (v1, None)
      else if v1.cft.None? && !env.parseOk then (FreeCachedVgMetadata(v1), None)
      else
        var v2 := if v1.cft.None? then v1.(cft := Some(ParsedTree(v1.metadata.value))) else v1;
        if !env.importOk then (FreeCachedVgMetadata(v2), None)
        else
          var v3 := v2.(cachedVg := Some(obj), holders := 1, useCount := 0, cachedVgInvalidated := false);
          if !env.poolLockOk then (FreeCachedVgMetadata(v3), None)
          else (Hold(v3), Some(obj))
  }

  /**
   * lvmcache_get_vg with lvmetad inactive.  NULL (None) when there is no
   * identifier, no record or no cached text, when the record is not valid,
   * when precommitted metadata is wanted but not cached, or when live
   * metadata is wanted while precommitted metadata is cached and no critical
   * section is active.  Otherwise the record is served by ServeRecord.
   */
  function GetVg(c: Cache, vgid: Option<string>, precommitted: bool, env: GetVgEnv): (r: (Cache, Option<ObjId>))
    ensures CachedRecord(c, vgid).None? ==> r == (c, None)
    ensures CachedRecord(c, vgid).Some? ==>
              var v := CachedRecord(c, vgid).value;
              if !Servable(c, v, precommitted, env.criticalSection) then r == (c, None)
              else
                var s := ServeRecord(c.vginfos[v], c.nextHandle, env);
                && r.1 == s.1
                && r.0.vginfos == c.vginfos[v := s.0]
                && r.0.nextHandle >= c.nextHandle
                && r.0 == c.(vginfos := r.0.vginfos, nextHandle := r.0.nextHandle)
  {
    match CachedRecord(c, vgid)
    case None => (c, None)
    case Some(v) =>
      if !Servable(c, v, precommitted, env.criticalSection) then (c, None)
      else
        var s := ServeRecord(c.vginfos[v], c.nextHandle, env);
        var build := c.vginfos[v].cachedVg.None? || c.vginfos[v].cachedVgInvalidated;
        (c.(vginfos := c.vginfos[v := s.0], nextHandle := if build then c.nextHandle + 1 else c.nextHandle), s.1)
  }

  /**
   * release_vg by a caller holding the cached VG object of a record: one
   * holder fewer, and the object detached when the last holder goes.  A
   * record without a cached object, and every other record, is unchanged.
   */
  function ReleaseCachedVg(c: Cache, v: VgRef): (c': Cache)
    requires v in c.vginfos
    ensures c'.vginfos.Keys == c.vginfos.Keys
    ensures forall w | w in c.vginfos && w != v :: c'.vginfos[w] == c.vginfos[w]
    ensures c.vginfos[v].cachedVg.None? ==> c' == c
    ensures c.vginfos[v].cachedVg.Some? && c.vginfos[v].holders == 1 ==>
              c'.vginfos[v].cachedVg.None? && c'.vginfos[v].holders == 0
    ensures c.vginfos[v].cachedVg.Some? && c.vginfos[v].holders > 1 ==>
              c'.vginfos[v].cachedVg == c.vginfos[v].cachedVg && c'.vginfos[v].holders == c.vginfos[v].holders - 1
    ensures c'.vginfos[v] == c.vginfos[v].(holders := c'.vginfos[v].holders, cachedVg := c'.vginfos[v].cachedVg)
    ensures c' == c.(vginfos := c'.vginfos)
  {
    c.(vginfos := c.vginfos[v := ReleaseVg(c.vginfos[v])])
  }
}
