/**
 * The records and the process-wide state of the LVM metadata cache
 * (lib/cache/lvmcache.c): one record per device carrying a PV label (Info),
 * one per volume group (VgInfo), and the hash tables, lists, counters and
 * flags that index them.
 *
 * Pointers become handles (naturals) into the maps of one Cache value; the
 * intrusive same-name chain of VG records becomes, per name, a sequence of
 * handles whose first element is the primary record.  The CACHE_INVALID and
 * CACHE_LOCKED status bits become two booleans.
 */
module CacheTypes {
  import opened Maybe

  /** Length of a PV or VG identifier. */
  const ID_LEN: nat := 32
  /** Name of the global lock. */
  const VG_GLOBAL: string := "#global"
  /** Common prefix of the orphan pseudo-VG names, and the lock name they share. */
  const VG_ORPHANS: string := "#orphans"
  /** Orphan pseudo-VG names of the three on-disk formats. */
  const FMT_TEXT_ORPHAN_VG_NAME: string := "#orphans_lvm2"
  const FMT_LVM1_ORPHAN_VG_NAME: string := "#orphans_lvm1"
  const FMT_POOL_ORPHAN_VG_NAME: string := "#orphans_pool"

  /** The `unsigned` counters of a VG record are 32 bits wide. */
  const U32: int := 0x1_0000_0000
  type u32 = x: int | 0 <= x < U32

  predicate IsGlobalVg(name: string) {
    name == VG_GLOBAL
  }

  /** Orphan pseudo-VG names all start with the orphan prefix. */
  predicate IsOrphanVg(name: string) {
    VG_ORPHANS <= name
  }

  /** The identifier as the source copies it: at most ID_LEN characters. */
  function IdKey(id: string): (k: string)
    ensures |k| <= ID_LEN && k <= id
    ensures |id| <= ID_LEN ==> k == id
  {
    if |id| <= ID_LEN then id else id[..ID_LEN]
  }

  type InfoId = nat
  type VgRef = nat
  type DevId = nat
  /** Identity of a parsed `struct volume_group` handed out to callers. */
  type ObjId = nat

  /** A metadata format (text, lvm1, pool) and the orphan VG it owns. */
  datatype Format = Format(name: string, orphanVgName: string)

  /** A label reader; its format is the format of the PVs it finds. */
  datatype Labeller = Labeller(id: nat, fmt: Format)

  /**
   * `struct lvmcache_info`: one per device.  The device of a record is kept
   * in the cache's `infoDev` map.
   */
  datatype Info = Info(
    labeller: Labeller,
    fmt: Format,
    vg: Option<VgRef>,          // NULL == unknown
    invalid: bool,              // CACHE_INVALID
    locked: bool,               // CACHE_LOCKED
    mdasEmptyOrIgnored: bool)   // summary of the metadata-area list

  /** The parsed config tree built from a metadata blob. */
  datatype ParsedTree = ParsedTree(source: string)

  /** `struct lvmcache_vginfo`: one per (VG name, VG id) pair. */
  datatype VgInfo = VgInfo(
    name: string,
    vgid: string,
    fmt: Format,
    exported: bool,             // status & EXPORTED_VG
    creationHost: Option<string>,
    lockType: Option<string>,
    mdaChecksum: int,
    mdaSize: int,
    metadata: Option<string>,   // cached metadata text; its size is its length
    cft: Option<ParsedTree>,    // lifetime tied to metadata
    cachedVg: Option<ObjId>,
    holders: u32,
    useCount: u32,
    precommitted: bool,
    cachedVgInvalidated: bool,
    members: seq<InfoId>)

  /** A freshly allocated (zeroed) VG record. */
  function NewVgInfo(name: string, fmt: Format): VgInfo {
    VgInfo(name, "", fmt, false, None, None, 0, 0, None, None, None, 0, 0, false, false, [])
  }

  /** The whole cache: what lvmcache.c keeps in file-scope statics. */
  datatype Cache = Cache(
    infos: map<InfoId, Info>,
    vginfos: map<VgRef, VgInfo>,
    pvidIndex: map<string, InfoId>,       // _pvid_hash
    vgidIndex: map<string, VgRef>,        // _vgid_hash
    nameIndex: map<string, seq<VgRef>>,   // _vgname_hash plus the `next` chains
    vgList: seq<VgRef>,                   // _vginfos
    infoDev: map<InfoId, DevId>,          // info->dev of each device record
    devPvid: map<DevId, string>,          // dev->pvid of each device
    locks: set<string>,                   // _lock_hash
    vgsLocked: int,                       // _vgs_locked
    foundDuplicates: bool,                // _found_duplicates
    scanningInProgress: bool,             // _scanning_in_progress
    hasScanned: bool,                     // _has_scanned
    nextHandle: nat)                      // allocator for new records and VG objects

  /** The pvid stored on a device, "" when none was ever written. */
  function DevPvid(c: Cache, d: DevId): string {
    if d in c.devPvid then c.devPvid[d] else ""
  }

  /** The same-name chain of a VG name, primary first. */
  function ChainOf(c: Cache, name: string): seq<VgRef> {
    if name in c.nameIndex then c.nameIndex[name] else []
  }

  /** Remove the first occurrence of `x` from `s`. */
  function RemoveFirst<T(==)>(s: seq<T>, x: T): (r: seq<T>)
    ensures x !in s ==> r == s
    ensures x in s ==> |r| + 1 == |s|
    ensures forall y :: y in r ==> y in s
    ensures forall y :: y in s && y != x ==> y in r
  {
    if |s| == 0 then s
    else if s[0] == x then s[1..]
    else [s[0]] + RemoveFirst(s[1..], x)
  }

  // ----- map helpers -----

  /** The VG record map with record `v` replaced by `x`. */
  function SetVgInfo(vginfos: map<VgRef, VgInfo>, v: VgRef, x: VgInfo): (r: map<VgRef, VgInfo>)
    requires v in vginfos
    ensures r.Keys == vginfos.Keys && r[v] == x
    ensures forall w | w in vginfos && w != v :: r[w] == vginfos[w]
  {
    vginfos[v := x]
  }

  lemma AddedKeyRemoved<K>(ks: set<K>, k: K)
    requires k !in ks
    ensures (ks + {k}) - {k} == ks
  {
  }

  lemma AddedEntryRemoved<K, V>(m: map<K, V>, k: K, v: V)
    requires k !in m
    ensures m[k := v] - {k} == m
  {
  }

  lemma SameEntryStored<K, V>(m: map<K, V>, k: K)
    requires k in m
    ensures m[k := m[k]] == m
  {
  }
}
