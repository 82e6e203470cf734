/**
 * Moving a device record into the VG named by its label
 * (_lvmcache_update_vgname and lvmcache_update_vgname_and_id of
 * lib/cache/lvmcache.c).
 */
module VgnameUpdate {
  import opened Maybe
  import opened CacheTypes
  import opened Lookup
  import opened LockState
  import opened Validity
  import opened VgIndex
  import opened PvIndex

  /**
   * The per-member loop of _lvmcache_update_vgname: each listed device record
   * is detached from its VG and attached to `to`.
   */
  function MoveMembers(c: Cache, to: VgRef, ms: seq<InfoId>): (r: Cache)
    ensures r.infos.Keys == c.infos.Keys && r.vginfos.Keys == c.vginfos.Keys
    ensures r == c.(infos := r.infos, vginfos := r.vginfos)
    decreases |ms|
  {
    if |ms| == 0 then c
    else MoveMembers(MoveOne(c, to, ms[0]), to, ms[1..])
  }

  /** One record of the loop: detached from its VG and attached to `to`. */
  function MoveOne(c: Cache, to: VgRef, m: InfoId): (r: Cache)
    ensures r.infos.Keys == c.infos.Keys && r.vginfos.Keys == c.vginfos.Keys
    ensures r == c.(infos := r.infos, vginfos := r.vginfos)
  {
    Attach(Detach(c, m), to, m)
  }

  /** The moved record points at `to`; every other record is untouched. */
  lemma MoveOneInfos(c: Cache, to: VgRef, m: InfoId)
    ensures var r := MoveOne(c, to, m);
            && (m in c.infos && to in c.vginfos ==> r.infos[m].vg == Some(to))
            && forall j | j in c.infos && j != m :: r.infos[j] == c.infos[j]
  {
  }

  /**
   * Moving the members of a VG record to another one: afterwards the old
   * record has no members, every moved record points at the target, and
   * records and VGs still agree.
   */
  lemma {:induction false} MoveMembersEmptiesSource(c: Cache, from: VgRef, to: VgRef, ms: seq<InfoId>)
    requires MembershipWf(c) && from in c.vginfos && to in c.vginfos && from != to
    requires c.vginfos[from].members == ms
    ensures var r := MoveMembers(c, to, ms);
            && MembershipWf(r)
            && r.vginfos[from].members == []
            && forall m | m in ms :: m in r.infos && r.infos[m].vg == Some(to)
    decreases |ms|
  {
    if |ms| > 0 {
      var m := ms[0];
      var c2 := MoveOne(c, to, m);
      MoveFirstMember(c, from, to, ms);
      MoveMembersEmptiesSource(c2, from, to, ms[1..]);
      StaysAttached(c2, to, m, ms[1..]);
      assert forall x | x in ms :: x == m || x in ms[1..];
    }
  }

  /** One step of the move: the first member leaves `from` for `to`. */
  lemma MoveFirstMember(c: Cache, from: VgRef, to: VgRef, ms: seq<InfoId>)
    requires MembershipWf(c) && from in c.vginfos && to in c.vginfos && from != to
    requires c.vginfos[from].members == ms && |ms| > 0
    ensures var c2 := MoveOne(c, to, ms[0]);
            && MembershipWf(c2)
            && from in c2.vginfos && to in c2.vginfos
            && c2.vginfos[from].members == ms[1..]
            && ms[0] in c2.infos && c2.infos[ms[0]].vg == Some(to)
  {
    var m := ms[0];
    MemberPointsBack(c, from, m);
    var c1 := Detach(c, m);
    DetachKeepsMembershipWf(c, m);
    assert Distinct(ms);
    assert RemoveFirst(ms, m) == ms[1..];
    AttachKeepsMembershipWf(c1, to, m);
    MoveOneInfos(c, to, m);
  }

  /** A record already in `to` stays there while further records move to `to`. */
  lemma {:induction false} StaysAttached(c: Cache, to: VgRef, m: InfoId, ms: seq<InfoId>)
    requires m in c.infos && c.infos[m].vg == Some(to) && to in c.vginfos
    ensures MoveMembers(c, to, ms).infos[m].vg == Some(to)
    decreases |ms|
  {
    if |ms| > 0 {
      MoveOneInfos(c, to, ms[0]);
      StaysAttached(MoveOne(c, to, ms[0]), to, m, ms[1..]);
    }
  }

  /**
   * The clean-up loop of _lvmcache_update_vgname while a scan is running:
   * as long as the primary record of `name` has no valid member, its
   * members move to the orphan VG of its format and the record is dropped.
   * Fails when that orphan VG is missing.  When the primary survives the
   * drop (it is itself an orphan VG, or kept members) the loop stops; the
   * source would test the same primary again forever.
   */
  function RemoveInvalidPrimaries(c: Cache, name: string): (r: (Cache, bool))
    ensures r.0.infos.Keys == c.infos.Keys && r.0.vginfos.Keys <= c.vginfos.Keys
    ensures r.0 == c.(infos := r.0.infos, vginfos := r.0.vginfos, nameIndex := r.0.nameIndex,
                      vgidIndex := r.0.vgidIndex, vgList := r.0.vgList)
    ensures !c.scanningInProgress ==> r == (c, true)
    decreases |c.vginfos.Keys|
  {
    match Primary(c, name)
    case None => (c, true)
    case Some(p) =>
      if !c.scanningInProgress || !NoMemberValid(c, p) then (c, true)
      else
        match Primary(c, c.vginfos[p].fmt.orphanVgName)
        case None => (c, false)
        case Some(o) =>
          var c2 := EvictPrimary(c, p, o);
          EvictPrimaryOutcome(c, p, o);
          if p in c2.vginfos then (c2, true)
          else RemoveInvalidPrimaries(c2, name)
  }

  /** One round of the clean-up loop: the members of `p` move to `o`, then `p` is dropped. */
  function EvictPrimary(c: Cache, p: VgRef, o: VgRef): (r: Cache)
    requires p in c.vginfos
    ensures r.infos.Keys == c.infos.Keys && r.vginfos.Keys <= c.vginfos.Keys
    ensures r == c.(infos := r.infos, vginfos := r.vginfos, nameIndex := r.nameIndex,
                    vgidIndex := r.vgidIndex, vgList := r.vgList)
  {
    DropVgInfo(MoveMembers(c, o, c.vginfos[p].members), None, Some(p))
  }

  /** A round either removes `p` or leaves it an orphan VG or a VG with members. */
  lemma EvictPrimaryOutcome(c: Cache, p: VgRef, o: VgRef)
    requires p in c.vginfos
    ensures var r := EvictPrimary(c, p, o);
            && (p in r.vginfos ==> IsOrphanVg(r.vginfos[p].name) || |r.vginfos[p].members| > 0)
            && (p !in r.vginfos ==> |r.vginfos.Keys| < |c.vginfos.Keys|)
  {
    var r := EvictPrimary(c, p, o);
    if p !in r.vginfos {
      assert r.vginfos.Keys < c.vginfos.Keys;
    }
  }

  /**
   * When the clean-up loop succeeds during a scan, the primary left behind
   * (if any) has a valid member, or is an orphan VG or a VG that kept
   * members.
   */
  lemma {:induction false} RemoveInvalidPrimariesExit(c: Cache, name: string)
    ensures var r := RemoveInvalidPrimaries(c, name);
            r.1 && c.scanningInProgress && Primary(r.0, name).Some? ==>
              var p := Primary(r.0, name).value;
              !NoMemberValid(r.0, p) || IsOrphanVg(r.0.vginfos[p].name) || |r.0.vginfos[p].members| > 0
    decreases |c.vginfos.Keys|
  {
    var r := RemoveInvalidPrimaries(c, name);
    if Primary(c, name).None? || !c.scanningInProgress || !NoMemberValid(c, Primary(c, name).value)
       || Primary(c, c.vginfos[Primary(c, name).value].fmt.orphanVgName).None? {
      assert r.0 == c;
    } else {
      var p := Primary(c, name).value;
      var o := Primary(c, c.vginfos[p].fmt.orphanVgName).value;
      var c2 := EvictPrimary(c, p, o);
      EvictPrimaryOutcome(c, p, o);
      if p in c2.vginfos {
        assert r == (c2, true);
        EvictKeepsPrimary(c, p, o, name);
      } else {
        assert r == RemoveInvalidPrimaries(c2, name);
        RemoveInvalidPrimariesExit(c2, name);
      }
    }
  }


  /** The name index stays consistent while only memberships change. */
  lemma ChainsWfFramed(c: Cache, c': Cache)
    requires ChainsWf(c)
    requires c'.nameIndex == c.nameIndex && c'.vginfos.Keys == c.vginfos.Keys
    requires forall w | w in c.vginfos :: c'.vginfos[w].name == c.vginfos[w].name
    ensures ChainsWf(c')
  {
  }

  /** Moving records between VGs keeps records and VGs in agreement. */
  lemma {:induction false} MoveMembersKeepsWf(c: Cache, to: VgRef, ms: seq<InfoId>)
    requires MembershipWf(c) && ChainsWf(c)
    ensures MembershipWf(MoveMembers(c, to, ms)) && ChainsWf(MoveMembers(c, to, ms))
    decreases |ms|
  {
    if |ms| > 0 {
      var c1 := Detach(c, ms[0]);
      DetachKeepsMembershipWf(c, ms[0]);
      AttachKeepsMembershipWf(c1, to, ms[0]);
      MoveOneKeepsChainsWf(c, to, ms[0]);
      MoveMembersKeepsWf(MoveOne(c, to, ms[0]), to, ms[1..]);
    }
  }

  lemma MoveOneKeepsChainsWf(c: Cache, to: VgRef, m: InfoId)
    requires ChainsWf(c)
    ensures ChainsWf(MoveOne(c, to, m))
  {
    DetachKeepsChainsWf(c, m);
    AttachKeepsChainsWf(Detach(c, m), to, m);
  }

  lemma DetachKeepsChainsWf(c: Cache, m: InfoId)
    requires ChainsWf(c)
    ensures ChainsWf(Detach(c, m))
  {
    var c1 := Detach(c, m);
    assert forall w | w in c.vginfos :: c1.vginfos[w].name == c.vginfos[w].name;
    ChainsWfFramed(c, c1);
  }

  lemma AttachKeepsChainsWf(c: Cache, to: VgRef, m: InfoId)
    requires ChainsWf(c)
    ensures ChainsWf(Attach(c, to, m))
  {
    var c1 := Attach(c, to, m);
    assert forall w | w in c.vginfos :: c1.vginfos[w].name == c.vginfos[w].name;
    ChainsWfFramed(c, c1);
  }

  /** The clean-up loop keeps records, VGs and the name index consistent. */
  lemma {:induction false} RemoveInvalidPrimariesKeepsWf(c: Cache, name: string)
    requires MembershipWf(c) && ChainsWf(c)
    ensures var r := RemoveInvalidPrimaries(c, name).0; MembershipWf(r) && ChainsWf(r)
    decreases |c.vginfos.Keys|
  {
    var r := RemoveInvalidPrimaries(c, name).0;
    if Primary(c, name).None? || !c.scanningInProgress || !NoMemberValid(c, Primary(c, name).value)
       || Primary(c, c.vginfos[Primary(c, name).value].fmt.orphanVgName).None? {
      assert r == c;
    } else {
      var p := Primary(c, name).value;
      var o := Primary(c, c.vginfos[p].fmt.orphanVgName).value;
      EvictKeepsWf(c, p, o);
      EvictPrimaryOutcome(c, p, o);
      var c2 := EvictPrimary(c, p, o);
      if p !in c2.vginfos {
        assert r == RemoveInvalidPrimaries(c2, name).0;
        RemoveInvalidPrimariesKeepsWf(c2, name);
      } else {
        assert r == c2;
      }
    }
  }


  /** A round that does not remove the primary leaves it the primary. */
  lemma EvictKeepsPrimary(c: Cache, p: VgRef, o: VgRef, name: string)
    requires p in c.vginfos && Primary(c, name) == Some(p) && p in EvictPrimary(c, p, o).vginfos
    ensures Primary(EvictPrimary(c, p, o), name) == Some(p)
  {
    var c2 := EvictPrimary(c, p, o);
    assert c2.nameIndex == c.nameIndex by {
      assert c2 == DropVgInfo(MoveMembers(c, o, c.vginfos[p].members), None, Some(p));
    }
  }

  /**
   * Where the model's loop stops: an orphan VG primary without members that
   * fails the validity test during a scan survives its round unchanged, so
   * the loop condition of the source holds again for the same record.
   */
  lemma {:induction false} SurvivingPrimaryRetested(c: Cache, p: VgRef, o: VgRef, name: string)
    requires p in c.vginfos && Primary(c, name) == Some(p) && c.scanningInProgress
    requires IsOrphanVg(c.vginfos[p].name) && |c.vginfos[p].members| == 0
    ensures var c2 := EvictPrimary(c, p, o);
            && p in c2.vginfos && c2.vginfos[p] == c.vginfos[p]
            && Primary(c2, name) == Some(p) && c2.scanningInProgress && NoMemberValid(c2, p)
  {
    var c2 := EvictPrimary(c, p, o);
    assert MoveMembers(c, o, c.vginfos[p].members) == c;
    assert c2 == c;
  }

  /** One round of the clean-up loop keeps both index invariants. */
  lemma EvictKeepsWf(c: Cache, p: VgRef, o: VgRef)
    requires MembershipWf(c) && ChainsWf(c) && p in c.vginfos
    ensures MembershipWf(EvictPrimary(c, p, o)) && ChainsWf(EvictPrimary(c, p, o))
  {
    var c1 := MoveMembers(c, o, c.vginfos[p].members);
    MoveMembersKeepsWf(c, o, c.vginfos[p].members);
    DropKeepsMembershipWf(c1, None, Some(p));
    DropKeepsChainsWf(c1, Some(p));
  }


  /**
   * Finding or creating the VG record for (name, vgid): the chain member
   * carrying `vgid` when there is one; otherwise, after the clean-up loop, a
   * new record joins the chain under the duplicate-name rules and the VG
   * list (orphan VGs at the tail, others at the head).
   */
  function FindOrCreateVg(c: Cache, name: string, vgid: string, exported: bool, host: Option<string>,
                          fmt: Format, localHost: string): (r: (Cache, Option<VgRef>))
    ensures r.1.Some? ==> r.1.value in r.0.vginfos
    ensures r.0.infos.Keys == c.infos.Keys
    ensures VgInfoFromVgname(c, Some(name), Some(vgid)).Some? ==> r == (c, VgInfoFromVgname(c, Some(name), Some(vgid)))
    ensures r.0 == c.(infos := r.0.infos, vginfos := r.0.vginfos, nameIndex := r.0.nameIndex,
                      vgidIndex := r.0.vgidIndex, vgList := r.0.vgList, nextHandle := r.0.nextHandle)
  {
    match VgInfoFromVgname(c, Some(name), Some(vgid))
    case Some(v) => (c, Some(v))
    case None =>
      var v := c.nextHandle;
      var cleaned := RemoveInvalidPrimaries(c.(nextHandle := c.nextHandle + 1), name);
      if !cleaned.1 then (cleaned.0, None)
      else
        var c3 := InsertVgInfo(cleaned.0, v, NewVgInfo(name, fmt), exported, host, localHost);
        var vgList := if IsOrphanVg(name) then c3.vgList + [v] else [v] + c3.vgList;
        (c3.(vgList := vgList), Some(v))
  }

  /**
   * Device record `i` sits in a VG record that carries format `fmt` and whose
   * members all have the LOCKED bit `locked`.
   */
  predicate JoinedWith(c: Cache, i: InfoId, fmt: Format, locked: bool) {
    && VgOf(c, i).Some?
    && c.vginfos[VgOf(c, i).value].fmt == fmt
    && forall j | j in c.infos && j in c.vginfos[VgOf(c, i).value].members :: c.infos[j].locked == locked
  }

  /** Device record `i` already sits in a VG record called `name`. */
  predicate InVgNamed(c: Cache, i: InfoId, name: string) {
    VgOf(c, i).Some? && c.vginfos[VgOf(c, i).value].name == name
  }

  /**
   * _lvmcache_update_vgname: move device record `i` (or, without one, set up
   * an orphan VG record) into the VG called `name` with id `vgid`.  Nothing
   * happens without a name or when the record is already in a VG of that
   * name.  Fails only when the clean-up loop misses an orphan VG.
   */
  function UpdateVgname(c: Cache, i: Option<InfoId>, name: Option<string>, vgid: string, exported: bool,
                        host: Option<string>, fmt: Format, localHost: string): (r: (Cache, bool))
    ensures r.0.infos.Keys == c.infos.Keys
    ensures name.None? ==> r == (c, true)
    ensures name.Some? && i.Some? && InVgNamed(c, i.value, name.value) ==> r == (c, true)
    ensures r.1 && name.Some? && i.Some? && i.value in c.infos ==> VgOf(r.0, i.value).Some?
    ensures r.1 && name.Some? && i.Some? && i.value in c.infos && !InVgNamed(c, i.value, name.value) ==>
              JoinedWith(r.0, i.value, fmt, IsLocked(c, name.value))
    ensures r.0 == c.(infos := r.0.infos, vginfos := r.0.vginfos, nameIndex := r.0.nameIndex,
                      vgidIndex := r.0.vgidIndex, vgList := r.0.vgList, nextHandle := r.0.nextHandle)
  {
    if name.None? then (c, true)
    else if i.Some? && InVgNamed(c, i.value, name.value) then (c, true)
    else Relocate(c, i, name.value, vgid, exported, host, fmt, localHost)
  }

  /** The device record leaves its VG and joins the one found or created for `name`. */
  function Relocate(c: Cache, i: Option<InfoId>, name: string, vgid: string, exported: bool,
                    host: Option<string>, fmt: Format, localHost: string): (r: (Cache, bool))
    ensures r.0.infos.Keys == c.infos.Keys
    ensures r.1 && i.Some? && i.value in c.infos ==> VgOf(r.0, i.value).Some?
    ensures r.1 && i.Some? && i.value in c.infos ==> JoinedWith(r.0, i.value, fmt, IsLocked(c, name))
    ensures r.0 == c.(infos := r.0.infos, vginfos := r.0.vginfos, nameIndex := r.0.nameIndex,
                      vgidIndex := r.0.vgidIndex, vgList := r.0.vgList, nextHandle := r.0.nextHandle)
  {
    var c1 := LeaveVg(c, i);
    var found := FindOrCreateVg(c1, name, vgid, exported, host, fmt, localHost);
    match found.1
    case None => (found.0, false)
    case Some(v) => (JoinVg(found.0, i, v, name, vgid, fmt), true)
  }

  /** "Remove existing vginfo entry": the device record leaves its VG, which is dropped if emptied. */
  function LeaveVg(c: Cache, i: Option<InfoId>): (r: Cache)
    ensures r.infos.Keys == c.infos.Keys
    ensures i.Some? && i.value in c.infos ==> r.infos[i.value].vg.None?
    ensures r == c.(infos := r.infos, vginfos := r.vginfos, nameIndex := r.nameIndex,
                    vgidIndex := r.vgidIndex, vgList := r.vgList)
  {
    if i.Some? && i.value in c.infos then DropVgInfo(c, i, c.infos[i.value].vg) else c
  }

  /**
   * The tail of _lvmcache_update_vgname once the VG record `v` is known:
   * attach the device record (or, for an orphan VG set up without one, key
   * the record under `vgid`), bring the members' lock bits in line with the
   * VG lock, and record the format.
   */
  function JoinVg(c: Cache, i: Option<InfoId>, v: VgRef, name: string, vgid: string, fmt: Format): (r: Cache)
    requires v in c.vginfos
    ensures r.infos.Keys == c.infos.Keys && r.vginfos.Keys == c.vginfos.Keys
    ensures i.Some? && i.value in c.infos ==> VgOf(r, i.value) == Some(v) && i.value in r.vginfos[v].members
    ensures r.vginfos[v].fmt == fmt && r.vginfos[v].name == c.vginfos[v].name
    ensures forall j | j in r.infos && j in r.vginfos[v].members :: r.infos[j].locked == IsLocked(c, name)
    ensures r == c.(infos := r.infos, vginfos := r.vginfos, vgidIndex := r.vgidIndex)
  {
    var c3 := AttachOrKey(c, i, v, vgid);
    var c4 := UpdateVgInfoLockState(c3, v, IsLocked(c3, name));
    LockStateKeepsMembership(c3, v, IsLocked(c3, name));
    c4.(vginfos := c4.vginfos[v := c4.vginfos[v].(fmt := fmt)])
  }

  /** Attach the device record, or key a record set up without one under `vgid`. */
  function AttachOrKey(c: Cache, i: Option<InfoId>, v: VgRef, vgid: string): (r: Cache)
    requires v in c.vginfos
    ensures r.infos.Keys == c.infos.Keys && r.vginfos.Keys == c.vginfos.Keys
    ensures i.Some? && i.value in c.infos ==> r.infos[i.value].vg == Some(v) && i.value in r.vginfos[v].members
    ensures r.vginfos[v].name == c.vginfos[v].name
    ensures r == c.(infos := r.infos, vginfos := r.vginfos, vgidIndex := r.vgidIndex)
  {
    if i.Some? then
      AttachLinks(c, v, i.value);
      Attach(c, v, i.value)
    else
      KeyKeepsLinks(c, v, vgid);
      UpdateVgid(c, Some(v), Some(vgid))
  }

  lemma AttachLinks(c: Cache, v: VgRef, i: InfoId)
    requires v in c.vginfos
    ensures var r := Attach(c, v, i);
            && r.infos.Keys == c.infos.Keys && r.vginfos.Keys == c.vginfos.Keys
            && (i in c.infos ==> r.infos[i].vg == Some(v) && i in r.vginfos[v].members)
            && r.vginfos[v].name == c.vginfos[v].name
  {
    if i in c.infos {
      var ms := c.vginfos[v].members + [i];
      assert ms[|ms| - 1] == i;
    }
  }

  lemma KeyKeepsLinks(c: Cache, v: VgRef, vgid: string)
    requires v in c.vginfos
    ensures var r := UpdateVgid(c, Some(v), Some(vgid));
            && r.infos == c.infos && r.vginfos.Keys == c.vginfos.Keys
            && r.vginfos[v].name == c.vginfos[v].name
  {
  }

  /** Syncing lock bits moves no record between VGs and renames nothing. */
  lemma LockStateKeepsMembership(c: Cache, v: VgRef, locked: bool)
    requires v in c.vginfos
    ensures var r := UpdateVgInfoLockState(c, v, locked);
            && (forall w | w in c.vginfos :: r.vginfos[w].members == c.vginfos[w].members
                                           && r.vginfos[w].name == c.vginfos[w].name)
            && (forall j | j in c.infos :: r.infos[j].vg == c.infos[j].vg)
  {
    var r := UpdateVgInfoLockState(c, v, locked);
    forall w | w in c.vginfos
      ensures r.vginfos[w].members == c.vginfos[w].members && r.vginfos[w].name == c.vginfos[w].name
    {
      if w == v && LockFlips(c, v, locked) {
        assert r.vginfos[v] == VgMetadata.FreeCachedVgMetadata(c.vginfos[v]);
      }
    }
    forall j | j in c.infos
      ensures r.infos[j].vg == c.infos[j].vg
    {
      if j in c.vginfos[v].members {
        assert r.infos[j] == c.infos[j].(locked := locked, invalid := r.infos[j].invalid);
      }
    }
  }


  /** Leaving a VG keeps the name index consistent. */
  lemma LeaveVgKeepsChainsWf(c: Cache, i: Option<InfoId>)
    requires ChainsWf(c)
    ensures ChainsWf(LeaveVg(c, i))
  {
    if i.Some? && i.value in c.infos {
      DetachKeepsChainsWf(c, i.value);
      var c1 := Detach(c, i.value);
      var v := c.infos[i.value].vg;
      assert c1 == DetachIfAny(c, i);
      if v.Some? && v.value in c1.vginfos && !IsOrphanVg(c1.vginfos[v.value].name)
         && |c1.vginfos[v.value].members| == 0 {
        FreeKeepsChainsWf(c1, v.value);
        assert LeaveVg(c, i) == FreeVgInfo(c1, v.value);
      } else {
        assert LeaveVg(c, i) == c1;
      }
    }
  }

  /**
   * With a consistent name index, a successful update leaves the device
   * record in a VG record carrying the requested name.
   */
  lemma UpdateVgnamePlacesRecord(c: Cache, i: InfoId, name: string, vgid: string, exported: bool,
                                 host: Option<string>, fmt: Format, localHost: string)
    requires ChainsWf(c) && i in c.infos
    ensures var r := UpdateVgname(c, Some(i), Some(name), vgid, exported, host, fmt, localHost);
            r.1 ==> VgOf(r.0, i).Some? && r.0.vginfos[VgOf(r.0, i).value].name == name
  {
    if !InVgNamed(c, i, name) {
      RelocatePlaces(c, i, name, vgid, exported, host, fmt, localHost);
      assert UpdateVgname(c, Some(i), Some(name), vgid, exported, host, fmt, localHost)
          == Relocate(c, Some(i), name, vgid, exported, host, fmt, localHost);
    }
  }

  /** A successful relocation files the device under the requested name. */
  lemma RelocatePlaces(c: Cache, i: InfoId, name: string, vgid: string, exported: bool, host: Option<string>,
                       fmt: Format, localHost: string)
    requires ChainsWf(c) && i in c.infos
    ensures var r := Relocate(c, Some(i), name, vgid, exported, host, fmt, localHost);
            r.1 ==> VgOf(r.0, i).Some? && r.0.vginfos[VgOf(r.0, i).value].name == name
  {
    var c1 := LeaveVg(c, Some(i));
    LeaveVgKeepsChainsWf(c, Some(i));
    FoundVgNamed(c1, name, vgid, exported, host, fmt, localHost);
  }

  /** The record found or created for a name carries that name. */
  lemma FoundVgNamed(c: Cache, name: string, vgid: string, exported: bool, host: Option<string>, fmt: Format,
                     localHost: string)
    requires ChainsWf(c)
    ensures var found := FindOrCreateVg(c, name, vgid, exported, host, fmt, localHost);
            found.1.Some? ==> found.0.vginfos[found.1.value].name == name
  {
    match VgInfoFromVgname(c, Some(name), Some(vgid))
    case Some(w) =>
      assert w in ChainOf(c, name);
      var k :| 0 <= k < |ChainOf(c, name)| && ChainOf(c, name)[k] == w;
    case None =>
  }

}
