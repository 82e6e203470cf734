/**
 * Validity of cached records (lib/cache/lvmcache.c): a device record is
 * usable when it is not marked invalid and either its VG is not locked by
 * this process or the record was refreshed under the lock.
 */
module Validity {
  import opened Maybe
  import opened CacheTypes
  import opened Lookup
  import opened VgMetadata
  import opened LockState

  /** _info_is_valid */
  predicate InfoIsValid(c: Cache, info: Info) {
    if info.invalid then false
    else if info.vg.Some? && info.vg.value in c.vginfos && !IsLocked(c, c.vginfos[info.vg.value].name) then true
    else info.locked
  }

  /** Every member of the VG is valid (vacuously true without members). */
  predicate AllMembersValid(c: Cache, v: VgRef)
    requires v in c.vginfos
  {
    forall j | 0 <= j < |c.vginfos[v].members| && c.vginfos[v].members[j] in c.infos ::
      InfoIsValid(c, c.infos[c.vginfos[v].members[j]])
  }

  /** No member of the VG is valid (vacuously true without members). */
  predicate NoMemberValid(c: Cache, v: VgRef)
    requires v in c.vginfos
  {
    forall j | 0 <= j < |c.vginfos[v].members| && c.vginfos[v].members[j] in c.infos ::
      !InfoIsValid(c, c.infos[c.vginfos[v].members[j]])
  }

  /** _vginfo_is_valid: the member walk stops at the first invalid record. */
  method VgInfoIsValid(c: Cache, v: VgRef) returns (b: bool)
    requires v in c.vginfos
    ensures b <==> AllMembersValid(c, v)
  {
    var ms := c.vginfos[v].members;
    var k := 0;
    while k < |ms|
      invariant 0 <= k <= |ms|
      invariant forall j | 0 <= j < k && ms[j] in c.infos :: InfoIsValid(c, c.infos[ms[j]])
    {
      if ms[k] in c.infos && !InfoIsValid(c, c.infos[ms[k]]) {
        return false;
      }
      k := k + 1;
    }
    return true;
  }

  /** _vginfo_is_invalid: the member walk stops at the first valid record. */
  method VgInfoIsInvalid(c: Cache, v: VgRef) returns (b: bool)
    requires v in c.vginfos
    ensures b <==> NoMemberValid(c, v)
  {
    var ms := c.vginfos[v].members;
    var k := 0;
    while k < |ms|
      invariant 0 <= k <= |ms|
      invariant forall j | 0 <= j < k && ms[j] in c.infos :: !InfoIsValid(c, c.infos[ms[j]])
    {
      if ms[k] in c.infos && InfoIsValid(c, c.infos[ms[k]]) {
        return false;
      }
      k := k + 1;
    }
    return true;
  }

  /** lvmcache_info_from_pvid: with `validOnly`, an invalid record is not returned. */
  function InfoFromPvidChecked(c: Cache, pvid: string, validOnly: bool): (r: Option<InfoId>)
    ensures r.Some? ==> r == InfoFromPvid(c, pvid)
    ensures r.Some? && validOnly ==> InfoIsValid(c, c.infos[r.value])
    ensures r.None? && InfoFromPvid(c, pvid).Some? ==> validOnly && !InfoIsValid(c, c.infos[InfoFromPvid(c, pvid).value])
  {
    match InfoFromPvid(c, pvid)
    case None => None
    case Some(i) => if validOnly && !InfoIsValid(c, c.infos[i]) then None else Some(i)
  }

  /** A VG with at least one known member cannot be both fully valid and fully invalid;
      one without members is both. */
  lemma {:induction false} ValidAndInvalidExclusive(c: Cache, v: VgRef)
    requires v in c.vginfos
    ensures (exists j :: 0 <= j < |c.vginfos[v].members| && c.vginfos[v].members[j] in c.infos)
              ==> !(AllMembersValid(c, v) && NoMemberValid(c, v))
    ensures |c.vginfos[v].members| == 0 ==> AllMembersValid(c, v) && NoMemberValid(c, v)
  {
    if exists j :: 0 <= j < |c.vginfos[v].members| && c.vginfos[v].members[j] in c.infos {
      var j :| 0 <= j < |c.vginfos[v].members| && c.vginfos[v].members[j] in c.infos;
      var info := c.infos[c.vginfos[v].members[j]];
      assert InfoIsValid(c, info) || !InfoIsValid(c, info);
    }
  }

  /**
   * Once a VG's records have been brought in line with the VG's lock state
   * (as _lvmcache_update_vgname does after attaching a record), each member's
   * validity is decided by its INVALID bit alone.
   */
  lemma {:induction false} SyncedMembersValidIffNotInvalid(c: Cache, v: VgRef)
    requires v in c.vginfos
    ensures var c' := UpdateVgInfoLockState(c, v, IsLocked(c, c.vginfos[v].name));
            forall i | i in c.infos && i in c.vginfos[v].members && c.infos[i].vg == Some(v) ::
              InfoIsValid(c', c'.infos[i]) <==> !c'.infos[i].invalid
  {
    var c' := UpdateVgInfoLockState(c, v, IsLocked(c, c.vginfos[v].name));
    forall i | i in c.infos && i in c.vginfos[v].members && c.infos[i].vg == Some(v)
      ensures InfoIsValid(c', c'.infos[i]) <==> !c'.infos[i].invalid
    {
      assert c'.infos[i].vg == Some(v);
      assert c'.vginfos[v].name == c.vginfos[v].name by {
        if LockFlips(c, v, IsLocked(c, c.vginfos[v].name)) {
          assert c'.vginfos[v] == FreeCachedVgMetadata(c.vginfos[v]);
        }
      }
      assert c'.locks == c.locks;
    }
  }
}
