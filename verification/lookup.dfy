/**
 * Identifier and name lookups of lib/cache/lvmcache.c: the PV index, the
 * VG-id index and the VG-name index with its same-name chains.
 */
module Lookup {
  import opened Maybe
  import opened CacheTypes

  /** lvmcache_info_from_pvid(pvid, 0): the device record indexed under the
      (truncated) identifier. */
  function InfoFromPvid(c: Cache, pvid: string): (r: Option<InfoId>)
    ensures r.Some? <==> IdKey(pvid) in c.pvidIndex && c.pvidIndex[IdKey(pvid)] in c.infos
    ensures r.Some? ==> r.value == c.pvidIndex[IdKey(pvid)]
  {
    var k := IdKey(pvid);
    if k in c.pvidIndex && c.pvidIndex[k] in c.infos then Some(c.pvidIndex[k]) else None
  }

  /** lvmcache_vginfo_from_vgid: a NULL identifier finds nothing. */
  function VgInfoFromVgid(c: Cache, vgid: Option<string>): (r: Option<VgRef>)
    ensures r.Some? <==> vgid.Some? && IdKey(vgid.value) in c.vgidIndex && c.vgidIndex[IdKey(vgid.value)] in c.vginfos
    ensures r.Some? ==> r.value == c.vgidIndex[IdKey(vgid.value)]
  {
    if vgid.None? then None
    else
      var k := IdKey(vgid.value);
      if k in c.vgidIndex && c.vgidIndex[k] in c.vginfos then Some(c.vgidIndex[k]) else None
  }

  /** A VG record whose identifier agrees with `vgid` on its first ID_LEN characters. */
  predicate HasVgid(c: Cache, v: VgRef, vgid: string) {
    v in c.vginfos && IdKey(c.vginfos[v].vgid) == IdKey(vgid)
  }

  /** The walk along the `next` chain: the first record carrying `vgid`. */
  function FindInChain(c: Cache, chain: seq<VgRef>, vgid: string): (r: Option<VgRef>)
    ensures r.Some? ==> HasVgid(c, r.value, vgid)
    ensures r.Some? ==> exists k :: 0 <= k < |chain| && chain[k] == r.value
                          && forall j :: 0 <= j < k ==> !HasVgid(c, chain[j], vgid)
    ensures r.None? ==> forall j :: 0 <= j < |chain| ==> !HasVgid(c, chain[j], vgid)
    decreases |chain|
  {
    if |chain| == 0 then None
    else if HasVgid(c, chain[0], vgid) then Some(chain[0])
    else
      var r := FindInChain(c, chain[1..], vgid);
      assert forall j :: 1 <= j < |chain| ==> chain[j] == chain[1..][j - 1];
      r
  }

  /** The record reached by a direct name lookup. */
  function Primary(c: Cache, name: string): (r: Option<VgRef>)
    ensures r.Some? <==> |ChainOf(c, name)| > 0 && ChainOf(c, name)[0] in c.vginfos
    ensures r.Some? ==> r.value == ChainOf(c, name)[0]
  {
    var ch := ChainOf(c, name);
    if |ch| > 0 && ch[0] in c.vginfos then Some(ch[0]) else None
  }

  /**
   * lvmcache_vginfo_from_vgname: without a name, the lookup is by identifier;
   * with a name and an identifier, only the chain member carrying that
   * identifier is returned; with a name alone, the primary.
   */
  function VgInfoFromVgname(c: Cache, name: Option<string>, vgid: Option<string>): (r: Option<VgRef>)
    ensures r.Some? ==> r.value in c.vginfos
    ensures name.None? ==> r == VgInfoFromVgid(c, vgid)
    ensures name.Some? && vgid.None? ==> r == Primary(c, name.value)
    ensures name.Some? && vgid.Some? && r.Some? ==>
              r.value in ChainOf(c, name.value) && HasVgid(c, r.value, vgid.value)
    ensures name.Some? && vgid.Some? && r.None? ==>
              forall v :: v in ChainOf(c, name.value) ==> !HasVgid(c, v, vgid.value)
  {
    if name.None? then VgInfoFromVgid(c, vgid)
    else if name.value !in c.nameIndex then None
    else if vgid.Some? then FindInChain(c, c.nameIndex[name.value], vgid.value)
    else Primary(c, name.value)
  }
}
