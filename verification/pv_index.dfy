/**
 * Identifier bookkeeping of lib/cache/lvmcache.c: rebinding a device record
 * to a PV id, re-keying a VG record under a VG id, and the status and
 * metadata-area summary copied into a VG record.
 */
module PvIndex {
  import opened Maybe
  import opened CacheTypes
  import opened Lookup

  /**
   * _lvmcache_update_pvid: nothing to do when the record is already indexed
   * under `pvid` and its device carries it; otherwise the device's old id
   * leaves the index, the device takes `pvid` and the index maps `pvid` to
   * the record.  The id is the caller's ID_LEN-bounded copy.
   */
  function UpdatePvid(c: Cache, i: InfoId, pvid: string): (r: Cache)
    requires i in c.infoDev && |pvid| <= ID_LEN
    ensures pvid in r.pvidIndex && r.pvidIndex[pvid] == i
    ensures DevPvid(r, c.infoDev[i]) == pvid
    ensures var prev := DevPvid(c, c.infoDev[i]);
            r.pvidIndex - {pvid} == if prev != "" then c.pvidIndex - {pvid, prev} else c.pvidIndex - {pvid}
    ensures r == c.(pvidIndex := r.pvidIndex, devPvid := r.devPvid)
  {
    var dev := c.infoDev[i];
    if pvid in c.pvidIndex && c.pvidIndex[pvid] == i && DevPvid(c, dev) == pvid then c
    else
      var index := if DevPvid(c, dev) != "" then c.pvidIndex - {DevPvid(c, dev)} else c.pvidIndex;
      c.(pvidIndex := index[pvid := i], devPvid := c.devPvid[dev := pvid])
  }

  /** Rebinding a record leaves the id of every other device alone. */
  lemma UpdatePvidKeepsOtherDevices(c: Cache, i: InfoId, pvid: string, d: DevId)
    requires i in c.infoDev && |pvid| <= ID_LEN && d != c.infoDev[i]
    ensures DevPvid(UpdatePvid(c, i, pvid), d) == DevPvid(c, d)
  {
  }

  /** After rebinding, a lookup by the new id finds the record. */
  lemma UpdatePvidThenLookup(c: Cache, i: InfoId, pvid: string)
    requires i in c.infoDev && i in c.infos && |pvid| <= ID_LEN
    ensures InfoFromPvid(UpdatePvid(c, i, pvid), pvid) == Some(i)
  {
  }

  /** Rebinding to the same id twice is the same as once. */
  lemma UpdatePvidIdempotent(c: Cache, i: InfoId, pvid: string)
    requires i in c.infoDev && |pvid| <= ID_LEN
    ensures var r := UpdatePvid(c, i, pvid); UpdatePvid(r, i, pvid) == r
  {
  }

  /**
   * _lvmcache_update_vgid: nothing to do without an id, without a record, or
   * when the record's id already agrees on ID_LEN characters; otherwise the
   * record leaves the VG-id index under its old id and is indexed under the
   * (truncated) new one.
   */
  function UpdateVgid(c: Cache, v: Option<VgRef>, vgid: Option<string>): (r: Cache)
    ensures vgid.Some? && v.Some? && v.value in c.vginfos ==>
              && v.value in r.vginfos
              && IdKey(r.vginfos[v.value].vgid) == IdKey(vgid.value)
              && (IdKey(c.vginfos[v.value].vgid) == IdKey(vgid.value) ==> r == c)
              && (IdKey(c.vginfos[v.value].vgid) != IdKey(vgid.value) ==>
                    && r.vginfos[v.value].vgid == IdKey(vgid.value)
                    && VgInfoFromVgid(r, vgid) == v
                    && var prev := c.vginfos[v.value].vgid;
                       (|prev| > 0 && prev != IdKey(vgid.value) ==> prev !in r.vgidIndex))
    ensures !(vgid.Some? && v.Some? && v.value in c.vginfos) ==> r == c
    ensures forall w | w in c.vginfos :: w in r.vginfos && (v != Some(w) ==> r.vginfos[w] == c.vginfos[w])
    ensures r.vginfos.Keys == c.vginfos.Keys
    ensures v.Some? && v.value in c.vginfos ==>
              r.vginfos[v.value] == c.vginfos[v.value].(vgid := r.vginfos[v.value].vgid)
    ensures r == c.(vginfos := r.vginfos, vgidIndex := r.vgidIndex)
  {
    if vgid.None? || v.None? || v.value !in c.vginfos then c
    else
      var vi := c.vginfos[v.value];
      if IdKey(vi.vgid) == IdKey(vgid.value) then c
      else
        var index := if |vi.vgid| > 0 then c.vgidIndex - {vi.vgid} else c.vgidIndex;
        var key := IdKey(vgid.value);
        c.(vginfos := c.vginfos[v.value := vi.(vgid := key)], vgidIndex := index[key := v.value])
  }

  /** The VG record of a device record, when it has one. */
  function VgOf(c: Cache, i: InfoId): (r: Option<VgRef>)
    ensures r.Some? ==> i in c.infos && r.value in c.vginfos && c.infos[i].vg == r
  {
    if i in c.infos && c.infos[i].vg.Some? && c.infos[i].vg.value in c.vginfos then c.infos[i].vg else None
  }

  /**
   * _lvmcache_update_vgstatus: the VG record of the device takes the new
   * exported status; a supplied creation host or lock type replaces the
   * recorded one, an absent one leaves it alone.
   */
  function UpdateVgStatus(c: Cache, i: InfoId, exported: bool, host: Option<string>,
                          lockType: Option<string>): (r: Cache)
    ensures VgOf(c, i).None? ==> r == c
    ensures VgOf(c, i).Some? ==>
              var v := VgOf(c, i).value;
              var vi := c.vginfos[v];
              r == c.(vginfos := c.vginfos[v := vi.(exported := exported,
                                                    creationHost := if host.Some? then host else vi.creationHost,
                                                    lockType := if lockType.Some? then lockType else vi.lockType)])
  {
    match VgOf(c, i)
    case None => c
    case Some(v) =>
      var vi := c.vginfos[v];
      var host' := if host.None? || vi.creationHost == host then vi.creationHost else host;
      var lockType' := if lockType.None? || vi.lockType == lockType then vi.lockType else lockType;
      c.(vginfos := c.vginfos[v := vi.(exported := exported, creationHost := host', lockType := lockType')])
  }

  /** Copying the same status twice is the same as once. */
  lemma UpdateVgStatusIdempotent(c: Cache, i: InfoId, exported: bool, host: Option<string>, lockType: Option<string>)
    ensures var r := UpdateVgStatus(c, i, exported, host, lockType);
            UpdateVgStatus(r, i, exported, host, lockType) == r
  {
  }

  /**
   * _lvmcache_update_vg_mda_info as written: nothing happens without a VG
   * record or for a zero size, and — because the two tests are joined by
   * `||` — also when either the checksum or the size already matches; only
   * when both differ is the pair replaced.
   */
  function UpdateVgMdaInfo(c: Cache, i: InfoId, checksum: int, size: int): (r: Cache)
    ensures VgOf(c, i).None? ==> r == c
    ensures VgOf(c, i).Some? ==>
              var vi := c.vginfos[VgOf(c, i).value];
              if size != 0 && checksum != vi.mdaChecksum && size != vi.mdaSize
              then r == c.(vginfos := c.vginfos[VgOf(c, i).value := vi.(mdaChecksum := checksum, mdaSize := size)])
              else r == c
  {
    match VgOf(c, i)
    case None => c
    case Some(v) =>
      var vi := c.vginfos[v];
      if size == 0 then c
      else if vi.mdaChecksum == checksum || vi.mdaSize == size then c
      else c.(vginfos := c.vginfos[v := vi.(mdaChecksum := checksum, mdaSize := size)])
  }

  /**
   * The recorded pair is never half-updated: afterwards it is either the old
   * pair or the new one.  A new checksum with an unchanged size is therefore
   * not recorded.
   */
  lemma MdaPairNeverMixed(c: Cache, i: InfoId, checksum: int, size: int)
    requires VgOf(c, i).Some?
    ensures var v := VgOf(c, i).value;
            var r := UpdateVgMdaInfo(c, i, checksum, size);
            || (r.vginfos[v].mdaChecksum == c.vginfos[v].mdaChecksum && r.vginfos[v].mdaSize == c.vginfos[v].mdaSize)
            || (r.vginfos[v].mdaChecksum == checksum && r.vginfos[v].mdaSize == size)
    ensures var v := VgOf(c, i).value;
            checksum != c.vginfos[v].mdaChecksum && size == c.vginfos[v].mdaSize ==>
              UpdateVgMdaInfo(c, i, checksum, size).vginfos[v].mdaChecksum == c.vginfos[v].mdaChecksum
  {
  }
}
