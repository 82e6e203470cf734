/**
 * Recording a scanned PV label (lvmcache_add and
 * lvmcache_update_vgname_and_id of lib/cache/lvmcache.c), including the
 * duplicate-PV policy: a PV id already seen on another device is ignored.
 */
module PvAdd {
  import opened Maybe
  import opened CacheTypes
  import opened Lookup
  import opened VgIndex
  import opened PvIndex
  import opened VgnameUpdate

  /** `struct lvmcache_vgsummary`: what a label or VG says about its VG. */
  datatype VgSummary = VgSummary(
    name: Option<string>,
    vgid: string,
    exported: bool,
    creationHost: Option<string>,
    lockType: Option<string>,
    mdaChecksum: int,
    mdaSize: int)

  /** An orphan VG name (a NULL name is not one). */
  predicate IsOrphanName(name: Option<string>) {
    name.Some? && IsOrphanVg(name.value)
  }

  /** The device record sits in a real (non-orphan) VG. */
  predicate InRealVg(c: Cache, i: InfoId) {
    VgOf(c, i).Some? && !IsOrphanVg(c.vginfos[VgOf(c, i).value].name)
  }

  /**
   * The name and id actually used: a record in no VG that is handed no name
   * goes to its format's orphan VG, whose id is its name.
   */
  function EffectiveTarget(c: Cache, i: InfoId, s: VgSummary): (r: (Option<string>, string))
    requires i in c.infos
    ensures r.0.None? <==> s.name.None? && c.infos[i].vg.Some?
    ensures s.name.Some? ==> r == (s.name, s.vgid)
  {
    if s.name.None? && c.infos[i].vg.None? then
      (Some(c.infos[i].fmt.orphanVgName), c.infos[i].fmt.orphanVgName)
    else (s.name, s.vgid)
  }

  /**
   * Moving a PV into an orphan VG: any cached VG object of the real VG it
   * leaves may still refer to the device, so it is marked invalidated; a PV
   * moving into a real VG is marked valid.
   */
  function MarkForMove(c: Cache, i: InfoId, name: Option<string>): (r: Cache)
    requires i in c.infos
    ensures i in r.infos && r.infos.Keys == c.infos.Keys
    ensures r == c.(infos := r.infos, vginfos := r.vginfos)
    ensures PvStateKept(c, r)
  {
    c.(infos := if IsOrphanName(name) then c.infos else ClearInvalid(c.infos, i),
       vginfos := if IsOrphanName(name) && InRealVg(c, i) then InvalidateCachedVg(c.vginfos, VgOf(c, i).value)
                  else c.vginfos)
  }

  /** Record `i` with its CACHE_INVALID bit cleared. */
  function ClearInvalid(infos: map<InfoId, Info>, i: InfoId): (r: map<InfoId, Info>)
    requires i in infos
    ensures r.Keys == infos.Keys && r[i] == infos[i].(invalid := false)
    ensures forall j | j in infos && j != i :: r[j] == infos[j]
  {
    infos[i := infos[i].(invalid := false)]
  }

  /** VG record `v` with its cached VG object marked invalidated. */
  function InvalidateCachedVg(vginfos: map<VgRef, VgInfo>, v: VgRef): (r: map<VgRef, VgInfo>)
    requires v in vginfos
    ensures r.Keys == vginfos.Keys && r[v] == vginfos[v].(cachedVgInvalidated := true)
    ensures forall w | w in vginfos && w != v :: r[w] == vginfos[w]
  {
    vginfos[v := vginfos[v].(cachedVgInvalidated := true)]
  }


  /**
   * Marking touches one flag of the device record and one of the VG record it
   * leaves; names, memberships and the VG the device is in stay as they were.
   */
  lemma MarkForMoveEffect(c: Cache, i: InfoId, name: Option<string>)
    requires i in c.infos
    ensures var r := MarkForMove(c, i, name);
            && (IsOrphanName(name) && InRealVg(c, i) ==> r.vginfos[VgOf(c, i).value].cachedVgInvalidated)
            && (!IsOrphanName(name) ==> !r.infos[i].invalid)
            && (IsOrphanName(name) ==> r.infos[i] == c.infos[i])
  {
  }

  /** Marking changes no VG link of the device. */
  lemma MarkForMoveKeepsLink(c: Cache, i: InfoId, name: Option<string>)
    requires i in c.infos
    ensures var r := MarkForMove(c, i, name);
            r.vginfos.Keys == c.vginfos.Keys && r.infos[i].vg == c.infos[i].vg && VgOf(r, i) == VgOf(c, i)
  {
  }

  /** Marking changes no VG name or member list. */
  lemma MarkForMoveKeepsMembers(c: Cache, i: InfoId, name: Option<string>, w: VgRef)
    requires i in c.infos && w in c.vginfos
    ensures var r := MarkForMove(c, i, name);
            w in r.vginfos && r.vginfos[w].name == c.vginfos[w].name && r.vginfos[w].members == c.vginfos[w].members
  {
  }





  /**
   * lvmcache_update_vgname_and_id: file device record `i` under the VG the
   * summary names and copy the summary's id, status and metadata-area
   * summary into that VG record.  Inside a critical section a PV without
   * metadata areas stays in its real VG rather than becoming an orphan.
   */
  function UpdateVgnameAndId(c: Cache, i: InfoId, s: VgSummary, localHost: string, critical: bool)
    : (r: (Cache, bool))
    requires i in c.infos
    ensures r.0.infos.Keys == c.infos.Keys
    ensures PvStateKept(c, r.0)
  {
    var target := EffectiveTarget(c, i, s);
    if IsOrphanName(target.0) && InRealVg(c, i) && c.infos[i].mdasEmptyOrIgnored && critical then (c, true)
    else
      var c2 := MarkForMove(c, i, target.0);
      var r := MoveAndCopy(c2, i, target.0, target.1, s, localHost);
      PvStateKeptTransitive(c, c2, r.0);
      r
  }

  /**
   * Inside a critical section, a device without usable metadata areas that
   * sits in a real VG is not turned into an orphan: the call succeeds and
   * changes nothing.
   */
  lemma CriticalOrphaningSkipped(c: Cache, i: InfoId, s: VgSummary, localHost: string)
    requires i in c.infos && InRealVg(c, i) && c.infos[i].mdasEmptyOrIgnored
    requires IsOrphanName(EffectiveTarget(c, i, s).0)
    ensures UpdateVgnameAndId(c, i, s, localHost, true) == (c, true)
  {
  }

  /**
   * The part of lvmcache_update_vgname_and_id after the record is marked:
   * join the target VG, then copy the summary into its record.
   */
  function MoveAndCopy(c: Cache, i: InfoId, name: Option<string>, vgid: string, s: VgSummary, localHost: string)
    : (r: (Cache, bool))
    requires i in c.infos
    ensures r.0.infos.Keys == c.infos.Keys
    ensures PvStateKept(c, r.0)
  {
    var u := UpdateVgname(c, Some(i), name, vgid, s.exported, s.creationHost, c.infos[i].fmt, localHost);
    UpdateVgnameKeepsPvState(c, Some(i), name, vgid, s.exported, s.creationHost, c.infos[i].fmt, localHost);
    if !u.1 then (u.0, false)
    else
      CopySummaryKeepsPvState(u.0, i, vgid, s);
      (CopySummary(u.0, i, vgid, s), true)
  }


  /** Joining or leaving a VG touches no device index. */
  lemma UpdateVgnameKeepsPvState(c: Cache, i: Option<InfoId>, name: Option<string>, vgid: string,
                                 exported: bool, host: Option<string>, fmt: Format, localHost: string)
    ensures PvStateKept(c, UpdateVgname(c, i, name, vgid, exported, host, fmt, localHost).0)
  {
  }

  /** Copying the summary into the VG record touches no device index. */
  lemma CopySummaryKeepsPvState(c: Cache, i: InfoId, vgid: string, s: VgSummary)
    ensures PvStateKept(c, CopySummary(c, i, vgid, s))
  {
  }

  /** The PV index, the devices and the duplicate flag are left alone. */
  predicate PvStateKept(c: Cache, r: Cache) {
    r.pvidIndex == c.pvidIndex && r.infoDev == c.infoDev && r.devPvid == c.devPvid
    && r.foundDuplicates == c.foundDuplicates
  }
  lemma PvStateKeptTransitive(a: Cache, b: Cache, c: Cache)
    requires PvStateKept(a, b) && PvStateKept(b, c)
    ensures PvStateKept(a, c)
  {
  }


  /** The last three steps: id, status and metadata-area summary of the record's VG. */
  function CopySummary(c: Cache, i: InfoId, vgid: string, s: VgSummary): (r: Cache)
    ensures r == c.(vginfos := r.vginfos, vgidIndex := r.vgidIndex)
  {
    var c4 := UpdateVgid(c, VgOf(c, i), Some(vgid));
    assert c4 == c.(vginfos := c4.vginfos, vgidIndex := c4.vgidIndex);
    var c5 := UpdateVgStatus(c4, i, s.exported, s.creationHost, s.lockType);
    assert c5 == c.(vginfos := c5.vginfos, vgidIndex := c5.vgidIndex);
    UpdateVgMdaInfo(c5, i, s.mdaChecksum, s.mdaSize)
  }

  /**
   * Afterwards the record's VG is indexed under the summary's id (to ID_LEN
   * characters) and carries its exported status and any creation host it
   * names.
   */
  lemma CopySummaryEffect(c: Cache, i: InfoId, vgid: string, s: VgSummary)
    requires VgOf(c, i).Some?
    ensures var v := VgOf(c, i).value;
            var r := CopySummary(c, i, vgid, s);
            && VgOf(r, i) == Some(v)
            && IdKey(r.vginfos[v].vgid) == IdKey(vgid)
            && r.vginfos[v].exported == s.exported
            && r.vginfos[v].name == c.vginfos[v].name
            && (s.creationHost.Some? ==> r.vginfos[v].creationHost == s.creationHost)
  {
    var c4 := UpdateVgid(c, VgOf(c, i), Some(vgid));
    VgidStep(c, i, vgid);
    var c5 := UpdateVgStatus(c4, i, s.exported, s.creationHost, s.lockType);
    StatusStep(c4, i, s);
    MdaStep(c5, i, s);
  }

  lemma VgidStep(c: Cache, i: InfoId, vgid: string)
    requires VgOf(c, i).Some?
    ensures var v := VgOf(c, i).value;
            var r := UpdateVgid(c, VgOf(c, i), Some(vgid));
            VgOf(r, i) == Some(v) && IdKey(r.vginfos[v].vgid) == IdKey(vgid) && r.vginfos[v].name == c.vginfos[v].name
  {
  }

  lemma StatusStep(c: Cache, i: InfoId, s: VgSummary)
    requires VgOf(c, i).Some?
    ensures var v := VgOf(c, i).value;
            var r := UpdateVgStatus(c, i, s.exported, s.creationHost, s.lockType);
            && VgOf(r, i) == Some(v)
            && r.vginfos[v] == c.vginfos[v].(exported := s.exported,
                                             creationHost := if s.creationHost.Some? then s.creationHost
                                                             else c.vginfos[v].creationHost,
                                             lockType := r.vginfos[v].lockType)
  {
  }

  lemma MdaStep(c: Cache, i: InfoId, s: VgSummary)
    requires VgOf(c, i).Some?
    ensures var v := VgOf(c, i).value;
            var r := UpdateVgMdaInfo(c, i, s.mdaChecksum, s.mdaSize);
            && VgOf(r, i) == Some(v)
            && r.vginfos[v] == c.vginfos[v].(mdaChecksum := r.vginfos[v].mdaChecksum, mdaSize := r.vginfos[v].mdaSize)
  {
  }


  // ----- lvmcache_add -----

  /** The device a record sits on. */
  function DevOf(c: Cache, i: InfoId): Option<DevId> {
    if i in c.infoDev then Some(c.infoDev[i]) else None
  }

  /** The record already known for a PV id, or failing that for the device's stored id. */
  function Existing(c: Cache, pvid: string, dev: DevId): (r: Option<InfoId>)
    ensures InfoFromPvid(c, pvid).Some? ==> r == InfoFromPvid(c, pvid)
    ensures InfoFromPvid(c, pvid).None? ==> r == InfoFromPvid(c, DevPvid(c, dev))
    ensures r.Some? ==> r.value in c.infos
  {
    if InfoFromPvid(c, pvid).Some? then InfoFromPvid(c, pvid) else InfoFromPvid(c, DevPvid(c, dev))
  }

  /** The label is a duplicate: its PV id is already recorded on another device. */
  predicate IsDuplicate(c: Cache, pvid: string, dev: DevId) {
    Existing(c, IdKey(pvid), dev).Some? && DevOf(c, Existing(c, IdKey(pvid), dev).value) != Some(dev)
  }

  /** Handles below `nextHandle` are the only ones in use. */
  predicate HandlesFresh(c: Cache) {
    (forall i | i in c.infos :: i < c.nextHandle) && (forall i | i in c.infoDev :: i < c.nextHandle)
  }

  /**
   * The record the label is filed under: a new zeroed record on `dev`
   * (format-less, in no VG, no metadata areas), or the existing one on the
   * same device with the new labeller.  Either way it takes the labeller's
   * format and is marked invalid.
   */
  function Prepare(c: Cache, existing: Option<InfoId>, labeller: Labeller, dev: DevId): (r: (Cache, InfoId))
    requires existing.Some? ==> existing.value in c.infos && DevOf(c, existing.value) == Some(dev)
    ensures r.1 in r.0.infos && DevOf(r.0, r.1) == Some(dev)
    ensures r.0.infos[r.1].invalid && r.0.infos[r.1].fmt == labeller.fmt && r.0.infos[r.1].labeller == labeller
    ensures existing.Some? ==> r.1 == existing.value && r.0.infos[r.1].vg == c.infos[r.1].vg
    ensures existing.Some? ==> r.0 == c.(infos := r.0.infos)
    ensures existing.None? ==> r.1 == c.nextHandle && r.0.infos[r.1].vg.None?
    ensures existing.None? ==> r.0 == c.(infos := r.0.infos, infoDev := c.infoDev[r.1 := dev],
                                         nextHandle := c.nextHandle + 1)
    ensures r.0.infos.Keys == c.infos.Keys + {r.1}
    ensures forall j | j in c.infos && j != r.1 :: r.0.infos[j] == c.infos[j]
  {
    match existing
    case Some(e) =>
      var info := c.infos[e].(labeller := labeller, fmt := labeller.fmt, invalid := true);
      (c.(infos := c.infos[e := info]), e)
    case None =>
      var h := c.nextHandle;
      var info := Info(labeller, labeller.fmt, None, true, false, true);
      (c.(infos := c.infos[h := info], infoDev := c.infoDev[h := dev], nextHandle := h + 1), h)
  }

  /** The clean-up after a new record failed to join its VG. */
  function Forget(c: Cache, i: InfoId, key: string, dev: DevId): (r: Cache)
    ensures key !in r.pvidIndex && i !in r.infos && i !in r.infoDev && DevPvid(r, dev) == ""
    ensures r == c.(infos := c.infos - {i}, infoDev := c.infoDev - {i}, pvidIndex := c.pvidIndex - {key},
                    devPvid := c.devPvid[dev := ""])
  {
    c.(infos := c.infos - {i}, infoDev := c.infoDev - {i}, pvidIndex := c.pvidIndex - {key},
       devPvid := c.devPvid[dev := ""])
  }

  /**
   * lvmcache_add: record a PV label read from `dev`.  A PV id already
   * recorded on another device is a duplicate: it is ignored, the
   * duplicates flag is raised and nothing else changes.  Otherwise the
   * record (new, or the existing one on the same device) is bound to the
   * id and filed under the VG of the label.  When that fails a new record
   * is forgotten again.  The vgid of the label is copied to at most ID_LEN
   * characters, "" when there is none.
   */
  function Add(c: Cache, labeller: Labeller, pvid: string, dev: DevId, vgname: Option<string>,
               vgid: Option<string>, exported: bool, localHost: string, critical: bool)
    : (r: (Cache, Option<InfoId>))
    ensures IsDuplicate(c, pvid, dev) ==> r == (c.(foundDuplicates := true), None)
    ensures !IsDuplicate(c, pvid, dev) ==> r.0.foundDuplicates == c.foundDuplicates
    ensures r.1.Some? ==> r.1.value in r.0.infos
  {
    var key := IdKey(pvid);
    var existing := Existing(c, key, dev);
    if existing.Some? && DevOf(c, existing.value) != Some(dev) then (c.(foundDuplicates := true), None)
    else
      var p := Prepare(c, existing, labeller, dev);
      var s := VgSummary(vgname, if vgid.Some? then IdKey(vgid.value) else "", exported, None, None, 0, 0);
      Register(p.0, p.1, key, dev, s, existing.None?, localHost, critical)
  }

  /**
   * The second half of lvmcache_add: bind record `i` on `dev` to the PV id
   * `key` and file it under the VG of the summary; on failure a record that
   * is new is forgotten again.
   */
  function Register(c: Cache, i: InfoId, key: string, dev: DevId, s: VgSummary, isNew: bool,
                    localHost: string, critical: bool): (r: (Cache, Option<InfoId>))
    requires i in c.infos && i in c.infoDev && c.infoDev[i] == dev && |key| <= ID_LEN
    ensures r.1.Some? ==> r.1 == Some(i) && i in r.0.infos && PvStateKept(UpdatePvid(c, i, key), r.0)
    ensures r.0.foundDuplicates == c.foundDuplicates
  {
    var c1 := UpdatePvid(c, i, key);
    var u := UpdateVgnameAndId(c1, i, s, localHost, critical);
    if u.1 then (u.0, Some(i))
    else if isNew then (Forget(u.0, i, key, dev), None)
    else (u.0, None)
  }

  /**
   * A duplicate label changes nothing but the duplicates flag, and the flag
   * is raised only for a duplicate.
   */
  lemma DuplicateIgnored(c: Cache, labeller: Labeller, pvid: string, dev: DevId, vgname: Option<string>,
                         vgid: Option<string>, exported: bool, localHost: string, critical: bool)
    requires !c.foundDuplicates
    ensures var r := Add(c, labeller, pvid, dev, vgname, vgid, exported, localHost, critical);
            && (r.0.foundDuplicates <==> IsDuplicate(c, pvid, dev))
            && (IsDuplicate(c, pvid, dev) ==> r.1.None? && r.0.infos == c.infos && r.0.pvidIndex == c.pvidIndex)
  {
  }

  /**
   * A label seen again on the device that already carries the PV reuses the
   * existing record: on success the same record is returned.
   */
  lemma SameDeviceReusesRecord(c: Cache, labeller: Labeller, pvid: string, dev: DevId, vgname: Option<string>,
                               vgid: Option<string>, exported: bool, localHost: string, critical: bool)
    requires InfoFromPvid(c, pvid).Some? && DevOf(c, InfoFromPvid(c, pvid).value) == Some(dev)
    ensures var r := Add(c, labeller, pvid, dev, vgname, vgid, exported, localHost, critical);
            && (r.1.Some? ==> r.1 == InfoFromPvid(c, pvid))
            && r.0.infos.Keys == c.infos.Keys
  {
    var key := IdKey(pvid);
    assert IdKey(key) == key;
    var e := InfoFromPvid(c, pvid).value;
    assert Existing(c, key, dev) == Some(e);
    var p := Prepare(c, Some(e), labeller, dev);
    assert p.0.infos.Keys == c.infos.Keys;
  }

  /**
   * A recorded label can be found again: the returned record is indexed
   * under the label's PV id and sits on the device the label came from.
   */
  lemma AddedRecordIndexed(c: Cache, labeller: Labeller, pvid: string, dev: DevId, vgname: Option<string>,
                           vgid: Option<string>, exported: bool, localHost: string, critical: bool)
    ensures var r := Add(c, labeller, pvid, dev, vgname, vgid, exported, localHost, critical);
            r.1.Some? ==> InfoFromPvid(r.0, pvid) == r.1 && DevOf(r.0, r.1.value) == Some(dev)
                          && DevPvid(r.0, dev) == IdKey(pvid)
  {
    var key := IdKey(pvid);
    var existing := Existing(c, key, dev);
    if !(existing.Some? && DevOf(c, existing.value) != Some(dev)) {
      var p := Prepare(c, existing, labeller, dev);
      var c1 := UpdatePvid(p.0, p.1, key);
      assert c1.pvidIndex[key] == p.1 && c1.infoDev[p.1] == dev && DevPvid(c1, dev) == key;
    }
  }

  /**
   * A new record that could not be filed is forgotten: no record, device or
   * index entry of it is left, and the device carries no PV id.
   */
  lemma FailedNewRecordForgotten(c: Cache, labeller: Labeller, pvid: string, dev: DevId, vgname: Option<string>,
                                 vgid: Option<string>, exported: bool, localHost: string, critical: bool)
    requires HandlesFresh(c)
    requires Existing(c, IdKey(pvid), dev).None?
    ensures var r := Add(c, labeller, pvid, dev, vgname, vgid, exported, localHost, critical);
            r.1.None? ==> && r.0.infos.Keys == c.infos.Keys && r.0.infoDev == c.infoDev
                          && IdKey(pvid) !in r.0.pvidIndex && DevPvid(r.0, dev) == ""
  {
    var key := IdKey(pvid);
    var p := Prepare(c, None, labeller, dev);
    var i := p.1;
    var s := VgSummary(vgname, if vgid.Some? then IdKey(vgid.value) else "", exported, None, None, 0, 0);
    assert Add(c, labeller, pvid, dev, vgname, vgid, exported, localHost, critical)
        == Register(p.0, i, key, dev, s, true, localHost, critical);
    RegisterForgets(p.0, i, key, dev, s, localHost, critical);
    assert i !in c.infos && i !in c.infoDev;
    assert p.0.infos.Keys == c.infos.Keys + {i};
    AddedKeyRemoved(c.infos.Keys, i);
    assert p.0.infoDev == c.infoDev[i := dev];
    AddedEntryRemoved(c.infoDev, i, dev);
  }

  /** A failed registration of a new record takes the record, its device and its id away again. */
  lemma RegisterForgets(c: Cache, i: InfoId, key: string, dev: DevId, s: VgSummary, localHost: string,
                        critical: bool)
    requires i in c.infos && i in c.infoDev && c.infoDev[i] == dev && |key| <= ID_LEN
    ensures var r := Register(c, i, key, dev, s, true, localHost, critical);
            r.1.None? ==> && r.0.infos.Keys == c.infos.Keys - {i} && r.0.infoDev == c.infoDev - {i}
                          && key !in r.0.pvidIndex && DevPvid(r.0, dev) == ""
  {
    var c1 := UpdatePvid(c, i, key);
    assert c1.infos == c.infos && c1.infoDev == c.infoDev;
    var u := UpdateVgnameAndId(c1, i, s, localHost, critical);
    assert u.0.infos.Keys == c.infos.Keys && u.0.infoDev == c.infoDev;
  }
}
