/**
 * Properties of the per-VG metadata cache that relate several operations:
 * precommit round trips and holder accounting.
 */
module MetadataLemmas {
  import opened Maybe
  import opened CacheTypes
  import opened Lookup
  import opened VgMetadata
  import opened LockState
  import opened Validity
  import opened MetadataOps

  /** Validity only looks at the device records, the lock set and the VG names. */
  lemma {:induction false} ValidityFramed(c: Cache, c': Cache, v: VgRef)
    requires v in c.vginfos && v in c'.vginfos
    requires c'.infos == c.infos && c'.locks == c.locks && c'.vginfos.Keys == c.vginfos.Keys
    requires forall w | w in c.vginfos :: c'.vginfos[w].name == c.vginfos[w].name
    requires c'.vginfos[v].members == c.vginfos[v].members
    ensures AllMembersValid(c', v) <==> AllMembersValid(c, v)
  {
    assert forall info: Info :: InfoIsValid(c', info) == InfoIsValid(c, info);
  }

  /**
   * Storing precommitted metadata and then committing it leaves the same text
   * cached, now live.
   */
  lemma PrecommitThenCommit(c: Cache, vgid: string, blob: string)
    requires VgInfoFromVgid(c, Some(vgid)).Some?
    requires var v := VgInfoFromVgid(c, Some(vgid)).value; Primary(c, c.vginfos[v].name) == Some(v)
    ensures var v := VgInfoFromVgid(c, Some(vgid)).value;
            var c1 := StoreMetadata(c, vgid, Some(blob), true);
            var c2 := CommitMetadata(c1, c.vginfos[v].name);
            && c1.vginfos[v].precommitted
            && c2.vginfos[v].metadata == Some(blob)
            && !c2.vginfos[v].precommitted
  {
  }

  /** Storing metadata and then reverting it leaves no text and no tree cached. */
  lemma StoreThenRevert(c: Cache, vgid: string, blob: string, precommitted: bool)
    requires VgInfoFromVgid(c, Some(vgid)).Some?
    requires var v := VgInfoFromVgid(c, Some(vgid)).value; Primary(c, c.vginfos[v].name) == Some(v)
    requires TreeTiedToBlob(c.vginfos[VgInfoFromVgid(c, Some(vgid)).value])
    ensures var v := VgInfoFromVgid(c, Some(vgid)).value;
            var c1 := StoreMetadata(c, vgid, Some(blob), precommitted);
            var c2 := DropMetadata(c1, c.vginfos[v].name, true).0;
            && c2.vginfos[v].metadata.None? && c2.vginfos[v].cft.None?
            && !c2.vginfos[v].precommitted
  {
  }

  /**
   * The end-to-end scenario: with precommitted metadata cached for a valid
   * VG and no critical section, a precommitted request is served and a live
   * one is refused; after the commit the live request is served.
   */
  lemma PrecommittedServedOnlyAfterCommit(c: Cache, vgid: string, blob: string, env: GetVgEnv)
    requires VgInfoFromVgid(c, Some(vgid)).Some?
    requires var v := VgInfoFromVgid(c, Some(vgid)).value;
             Primary(c, c.vginfos[v].name) == Some(v) && AllMembersValid(c, v)
    requires !env.criticalSection
    requires env.instanceOk && env.parseOk && env.importOk && env.poolLockOk
    ensures var v := VgInfoFromVgid(c, Some(vgid)).value;
            var c1 := StoreMetadata(c, vgid, Some(blob), true);
            && GetVg(c1, Some(vgid), true, env).1.Some?
            && GetVg(c1, Some(vgid), false, env).1.None?
            && GetVg(CommitMetadata(c1, c.vginfos[v].name), Some(vgid), false, env).1.Some?
  {
    var v := VgInfoFromVgid(c, Some(vgid)).value;
    var c1 := StoreMetadata(c, vgid, Some(blob), true);
    StoreKeepsRecord(c, vgid, Some(blob), true);
    assert Servable(c1, v, true, false);
    var c2 := CommitMetadata(c1, c.vginfos[v].name);
    CommitKeepsRecord(c1, vgid);
    assert Servable(c2, v, false, false);
  }

  /** Storing a text keeps the record found, named and valid as before. */
  lemma StoreKeepsRecord(c: Cache, vgid: string, data: Option<string>, precommitted: bool)
    requires VgInfoFromVgid(c, Some(vgid)).Some?
    ensures var v := VgInfoFromVgid(c, Some(vgid)).value;
            var c1 := StoreMetadata(c, vgid, data, precommitted);
            && VgInfoFromVgid(c1, Some(vgid)) == Some(v)
            && c1.vginfos[v].name == c.vginfos[v].name
            && c1.vginfos[v].metadata == data
            && (data.Some? ==> c1.vginfos[v].precommitted == precommitted)
            && Primary(c1, c.vginfos[v].name) == Primary(c, c.vginfos[v].name)
            && (AllMembersValid(c1, v) <==> AllMembersValid(c, v))
  {
    var v := VgInfoFromVgid(c, Some(vgid)).value;
    var c1 := StoreMetadata(c, vgid, data, precommitted);
    ValidityFramed(c, c1, v);
  }

  /** Committing keeps the record found, named, holding its text and valid as before. */
  lemma CommitKeepsRecord(c: Cache, vgid: string)
    requires VgInfoFromVgid(c, Some(vgid)).Some?
    requires var v := VgInfoFromVgid(c, Some(vgid)).value; Primary(c, c.vginfos[v].name) == Some(v)
    ensures var v := VgInfoFromVgid(c, Some(vgid)).value;
            var c1 := CommitMetadata(c, c.vginfos[v].name);
            && VgInfoFromVgid(c1, Some(vgid)) == Some(v)
            && c1.vginfos[v].metadata == c.vginfos[v].metadata
            && !c1.vginfos[v].precommitted
            && (AllMembersValid(c1, v) <==> AllMembersValid(c, v))
  {
    var v := VgInfoFromVgid(c, Some(vgid)).value;
    var c1 := CommitMetadata(c, c.vginfos[v].name);
    ValidityFramed(c, c1, v);
  }

  /** n successive get_vg calls, with their results in order. */
  function GetVgTimes(c: Cache, vgid: Option<string>, precommitted: bool, env: GetVgEnv, n: nat)
    : (r: (Cache, seq<Option<ObjId>>))
    ensures |r.1| == n
    decreases n
  {
    if n == 0 then (c, [])
    else
      var first := GetVg(c, vgid, precommitted, env);
      var rest := GetVgTimes(first.0, vgid, precommitted, env, n - 1);
      (rest.0, [first.1] + rest.1)
  }

  /**
   * Holder accounting: while the cached VG object stays good, every get_vg
   * call returns that same object, and the holder and use counts grow by one
   * per call.
   */
  lemma {:induction false} RepeatedGetVgSharesObject(c: Cache, vgid: Option<string>, precommitted: bool,
                                                     env: GetVgEnv, n: nat)
    requires CachedRecord(c, vgid).Some?
    requires var v := CachedRecord(c, vgid).value;
             && Servable(c, v, precommitted, env.criticalSection)
             && c.vginfos[v].cachedVg.Some? && !c.vginfos[v].cachedVgInvalidated
             && c.vginfos[v].holders + n < U32 && c.vginfos[v].useCount + n < U32
    ensures var v := CachedRecord(c, vgid).value;
            var r := GetVgTimes(c, vgid, precommitted, env, n);
            && (forall k | 0 <= k < n :: r.1[k] == c.vginfos[v].cachedVg)
            && v in r.0.vginfos
            && r.0.vginfos[v].cachedVg == c.vginfos[v].cachedVg
            && r.0.vginfos[v].holders == c.vginfos[v].holders + n
            && r.0.vginfos[v].useCount == c.vginfos[v].useCount + n
    decreases n
  {
    var v := CachedRecord(c, vgid).value;
    if n > 0 {
      var first := GetVg(c, vgid, precommitted, env);
      SharedStep(c, vgid, precommitted, env);
      var c1 := first.0;
      HoldCounts(c.vginfos[v]);
      RepeatedGetVgSharesObject(c1, vgid, precommitted, env, n - 1);
      var rest := GetVgTimes(c1, vgid, precommitted, env, n - 1);
      var r := GetVgTimes(c, vgid, precommitted, env, n);
      assert r == (rest.0, [first.1] + rest.1);
      forall k | 0 <= k < n
        ensures r.1[k] == c.vginfos[v].cachedVg
      {
        if k > 0 {
          assert r.1[k] == rest.1[k - 1];
        }
      }
    }
  }

  /** Taking one more hold counts up without wrapping while below the limit. */
  lemma HoldCounts(vi: VgInfo)
    requires vi.holders + 1 < U32 && vi.useCount + 1 < U32
    ensures Hold(vi).holders == vi.holders + 1 && Hold(vi).useCount == vi.useCount + 1
    ensures Hold(vi).cachedVg == vi.cachedVg
  {
  }

  /** One get_vg call that shares the cached object keeps the record servable. */
  lemma SharedStep(c: Cache, vgid: Option<string>, precommitted: bool, env: GetVgEnv)
    requires CachedRecord(c, vgid).Some?
    requires var v := CachedRecord(c, vgid).value;
             && Servable(c, v, precommitted, env.criticalSection)
             && c.vginfos[v].cachedVg.Some? && !c.vginfos[v].cachedVgInvalidated
    ensures var v := CachedRecord(c, vgid).value;
            var r := GetVg(c, vgid, precommitted, env);
            && r.1 == c.vginfos[v].cachedVg
            && v in r.0.vginfos && r.0.vginfos[v] == Hold(c.vginfos[v])
            && CachedRecord(r.0, vgid) == Some(v)
            && Servable(r.0, v, precommitted, env.criticalSection)
  {
    var v := CachedRecord(c, vgid).value;
    var c1 := c.(vginfos := c.vginfos[v := Hold(c.vginfos[v])]);
    ValidityFramed(c, c1, v);
    assert VgInfoFromVgid(c1, vgid) == VgInfoFromVgid(c, vgid);
  }

  /** k releases of the cached VG object of a record. */
  function ReleaseTimes(vi: VgInfo, k: nat): VgInfo
    decreases k
  {
    if k == 0 then vi else ReleaseTimes(ReleaseVg(vi), k - 1)
  }

  /**
   * Holder accounting: with h >= 1 holders, the cached VG object survives the
   * first h - 1 releases and is detached by the h-th.
   */
  lemma {:induction false} ObjectDetachedOnlyAfterAllReleases(vi: VgInfo, k: nat)
    requires vi.cachedVg.Some? && 1 <= vi.holders
    ensures k < vi.holders ==> ReleaseTimes(vi, k).cachedVg == vi.cachedVg
                               && ReleaseTimes(vi, k).holders == vi.holders - k
    ensures k >= vi.holders ==> ReleaseTimes(vi, k).cachedVg.None?
    decreases k
  {
    if k > 0 {
      var vi1 := ReleaseVg(vi);
      if vi.holders == 1 {
        assert vi1.cachedVg.None?;
        NoObjectReleaseIsNoOp(vi1, k - 1);
      } else {
        ObjectDetachedOnlyAfterAllReleases(vi1, k - 1);
      }
    }
  }

  /** Releasing a record with no cached VG object changes nothing. */
  lemma {:induction false} NoObjectReleaseIsNoOp(vi: VgInfo, k: nat)
    requires vi.cachedVg.None?
    ensures ReleaseTimes(vi, k) == vi
    decreases k
  {
    if k > 0 {
      NoObjectReleaseIsNoOp(ReleaseVg(vi), k - 1);
    }
  }
}
