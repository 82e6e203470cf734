/**
 * Lock bookkeeping of lib/cache/lvmcache.c and the cache invalidation it
 * drives: a change of a VG's lock state marks its device records invalid and
 * wipes its cached metadata, unless the global lock is held.
 */
module LockState {
  import opened Maybe
  import opened CacheTypes
  import opened Lookup
  import opened VgMetadata

  /** lvmcache_vgname_is_locked: all orphan VGs share the VG_ORPHANS lock. */
  predicate IsLocked(c: Cache, name: string) {
    (if IsOrphanVg(name) then VG_ORPHANS else name) in c.locks
  }

  /** One device record after _update_cache_info_lock_state. */
  function SyncInfo(info: Info, locked: bool, globalHeld: bool): Info {
    info.(locked := locked, invalid := info.invalid || (!globalHeld && info.locked != locked))
  }

  /**
   * _update_cache_info_lock_state applied to the members of a VG in list
   * order; the boolean says whether some member's lock bit flipped while the
   * global lock was not held (which clears `cached_vgmetadata_valid`).
   */
  function UpdateMembersLockState(infos: map<InfoId, Info>, members: seq<InfoId>, locked: bool,
                                  globalHeld: bool): (r: (map<InfoId, Info>, bool))
    ensures r.0.Keys == infos.Keys
    ensures forall i | i in infos && i !in members :: r.0[i] == infos[i]
    ensures forall i | i in infos && i in members :: r.0[i] == SyncInfo(infos[i], locked, globalHeld)
    ensures r.1 <==> !globalHeld && exists i :: i in members && i in infos && infos[i].locked != locked
    decreases |members|
  {
    if |members| == 0 then (infos, false)
    else
      var m := members[0];
      var infos1 := if m in infos then infos[m := SyncInfo(infos[m], locked, globalHeld)] else infos;
      var flipped := m in infos && !globalHeld && infos[m].locked != locked;
      var rest := UpdateMembersLockState(infos1, members[1..], locked, globalHeld);
      assert forall i :: i in members <==> i == m || i in members[1..];
      (rest.0, flipped || rest.1)
  }

  /** Some member's LOCKED bit differs from `locked` while the global lock is not held. */
  predicate LockFlips(c: Cache, v: VgRef, locked: bool)
    requires v in c.vginfos
  {
    !IsLocked(c, VG_GLOBAL) && exists i :: i in c.vginfos[v].members && i in c.infos && c.infos[i].locked != locked
  }

  /**
   * `c'` is `c` with the lock state of VG record `v` synced to `locked`:
   * every member takes the LOCKED bit and turns INVALID if its bit flipped
   * while the global lock (as held in `c`) was not held, the record's cached
   * metadata is freed exactly when such a flip happened, and every other
   * device record and VG record is as it was.
   */
  predicate LockSynced(c: Cache, c': Cache, v: VgRef, locked: bool)
    requires v in c.vginfos
  {
    && c'.infos.Keys == c.infos.Keys && c'.vginfos.Keys == c.vginfos.Keys
    && (forall i | i in c.infos && i in c.vginfos[v].members ::
          c'.infos[i] == SyncInfo(c.infos[i], locked, IsLocked(c, VG_GLOBAL)))
    && (forall i | i in c.infos && i !in c.vginfos[v].members :: c'.infos[i] == c.infos[i])
    && (forall w | w in c.vginfos && w != v :: c'.vginfos[w] == c.vginfos[w])
    && c'.vginfos[v] == (if LockFlips(c, v, locked) then FreeCachedVgMetadata(c.vginfos[v]) else c.vginfos[v])
  }

  /**
   * _update_cache_vginfo_lock_state: afterwards every member's LOCKED bit is
   * `locked`; a member becomes INVALID exactly when its LOCKED bit flipped
   * while the global lock was not held, and then the cached metadata is
   * wiped.  No other record changes.
   */
  function UpdateVgInfoLockState(c: Cache, v: VgRef, locked: bool): (c': Cache)
    requires v in c.vginfos
    ensures c'.infos.Keys == c.infos.Keys && c'.vginfos.Keys == c.vginfos.Keys
    ensures forall i | i in c.infos && i in c.vginfos[v].members ::
              c'.infos[i].locked == locked
              && (c'.infos[i].invalid <==> c.infos[i].invalid || (!IsLocked(c, VG_GLOBAL) && c.infos[i].locked != locked))
              && c'.infos[i] == c.infos[i].(locked := locked, invalid := c'.infos[i].invalid)
    ensures forall i | i in c.infos && i !in c.vginfos[v].members :: c'.infos[i] == c.infos[i]
    ensures forall w | w in c.vginfos && w != v :: c'.vginfos[w] == c.vginfos[w]
    ensures LockFlips(c, v, locked) ==> c'.vginfos[v] == FreeCachedVgMetadata(c.vginfos[v])
    ensures !LockFlips(c, v, locked) ==> c'.vginfos[v] == c.vginfos[v]
    ensures LockSynced(c, c', v, locked)
    ensures c' == c.(infos := c'.infos, vginfos := c'.vginfos)
  {
    var r := UpdateMembersLockState(c.infos, c.vginfos[v].members, locked, IsLocked(c, VG_GLOBAL));
    var c1 := c.(infos := r.0);
    if r.1 then c1.(vginfos := c1.vginfos[v := FreeCachedVgMetadata(c1.vginfos[v])]) else c1
  }

  /**
   * _update_cache_lock_state: only the primary record of the name is synced
   * (other records in the name's chain keep their state); an unknown name
   * changes nothing.
   */
  function UpdateCacheLockState(c: Cache, name: string, locked: bool): (c': Cache)
    ensures Primary(c, name).None? ==> c' == c
    ensures Primary(c, name).Some? ==> LockSynced(c, c', Primary(c, name).value, locked)
    ensures c' == c.(infos := c'.infos, vginfos := c'.vginfos)
  {
    match VgInfoFromVgname(c, Some(name), None)
    case None => c
    case Some(v) => UpdateVgInfoLockState(c, v, locked)
  }

  /**
   * lvmcache_lock_vgname: record the lock (a nested lock is reported, not
   * refused) and, for any name but the global one, count it and push the
   * locked state into the VG's primary record.
   */
  function LockVgname(c: Cache, name: string): (r: (Cache, bool))
    ensures r.1 <==> name in c.locks
    ensures r.0.locks == c.locks + {name} && r.0.infos.Keys == c.infos.Keys
    ensures IsGlobalVg(name) ==> r.0 == c.(locks := c.locks + {name})
    ensures !IsGlobalVg(name) ==> r.0.vgsLocked == c.vgsLocked + 1
    ensures !IsGlobalVg(name) && Primary(c, name).Some? ==> LockSynced(c, r.0, Primary(c, name).value, true)
    ensures Primary(c, name).None? ==> r.0.infos == c.infos && r.0.vginfos == c.vginfos
    ensures r.0 == c.(locks := r.0.locks, vgsLocked := r.0.vgsLocked, infos := r.0.infos, vginfos := r.0.vginfos)
  {
    var c1 := c.(locks := c.locks + {name});
    if name == VG_GLOBAL then (c1, name in c.locks)
    else
      LockedPrimaryMembers(c, c1, name);
      var c2 := UpdateCacheLockState(c1, name, true);
      (c2.(vgsLocked := c2.vgsLocked + 1), name in c.locks)
  }

  /**
   * Taking a lock on a name other than the global one leaves the global
   * lock's state alone, so syncing after the lock is recorded is syncing
   * against the state before it.
   */
  lemma LockedPrimaryMembers(c: Cache, c1: Cache, name: string)
    requires c1 == c.(locks := c.locks + {name}) && name != VG_GLOBAL
    ensures var c2 := UpdateCacheLockState(c1, name, true);
            && c2.locks == c1.locks && c2.vgsLocked == c.vgsLocked
            && (Primary(c, name).Some? ==> LockSynced(c, c2, Primary(c, name).value, true))
            && (Primary(c, name).None? ==> c2.infos == c.infos && c2.vginfos == c.vginfos)
  {
    assert Primary(c1, name) == Primary(c, name);
    assert IsLocked(c1, VG_GLOBAL) == IsLocked(c, VG_GLOBAL);
  }

  /**
   * lvmcache_unlock_vgname: unlocking an unlocked name is reported, not
   * refused.  For any name but the global one the VG's records are marked
   * unlocked first and the counter drops; reaching zero closes all devices
   * (the third component).
   */
  function UnlockVgname(c: Cache, name: string): (r: (Cache, bool, bool))
    ensures r.1 <==> name !in c.locks
    ensures r.0.locks == c.locks - {name} && r.0.infos.Keys == c.infos.Keys
    ensures IsGlobalVg(name) ==> r.0 == c.(locks := c.locks - {name}) && !r.2
    ensures !IsGlobalVg(name) ==> r.0.vgsLocked == c.vgsLocked - 1 && (r.2 <==> c.vgsLocked == 1)
    ensures !IsGlobalVg(name) && Primary(c, name).Some? ==> LockSynced(c, r.0, Primary(c, name).value, false)
    ensures Primary(c, name).None? ==> r.0.infos == c.infos && r.0.vginfos == c.vginfos
    ensures r.0 == c.(locks := r.0.locks, vgsLocked := r.0.vgsLocked, infos := r.0.infos, vginfos := r.0.vginfos)
  {
    if name == VG_GLOBAL then (c.(locks := c.locks - {name}), name !in c.locks, false)
    else
      var c1 := UpdateCacheLockState(c, name, false);
      var c2 := c1.(locks := c1.locks - {name}, vgsLocked := c1.vgsLocked - 1);
      (c2, name !in c.locks, c2.vgsLocked == 0)
  }
}
