/**
 * The label scan of lib/cache/lvmcache.c (lvmcache_label_scan): its
 * re-entrancy guard and the `_has_scanned` bookkeeping.
 *
 * Reading labels from devices is I/O and lies outside the model: what the
 * reads leave in the cache is passed in as a cache value.  The reads reach
 * the cache only through lvmcache_add, which leaves the scan flags alone, so
 * that value is taken over whole except for the two scan flags, which the
 * scan itself sets.
 */
module LabelScan {
  import opened CacheTypes

  /** The outcomes of the steps of a full scan that the cache does not decide. */
  datatype ScanEnv = ScanEnv(
    refreshFails: bool,       // refresh_filters, needed for full_scan == 2 with an unused filter
    iterFails: bool,          // no filter, or dev_iter_create failed
    formatScanFails: bool)    // a format's own scan hook failed

  /** The cache as left by label reads, with the given scan flags. */
  function AfterReads(read: Cache, scanned: bool): (r: Cache)
    ensures !r.scanningInProgress && r.hasScanned == scanned
    ensures r.infos == read.infos && r.vginfos == read.vginfos
  {
    read.(scanningInProgress := false, hasScanned := scanned)
  }

  /**
   * lvmcache_label_scan: a call made while a scan is in progress fails at
   * once and changes nothing.  Otherwise the in-progress flag is raised for
   * the duration of the call and lowered on every exit.  After a first scan,
   * a call that does not ask for a full scan only re-reads the invalid
   * records (`rescan`); any other call reads every device (`readAll`) and
   * then records that a scan has happened, even if a format's own scan then
   * fails.
   */
  function Scan(c: Cache, fullScan: int, env: ScanEnv, readAll: Cache, rescan: Cache): (r: (Cache, bool))
    ensures c.scanningInProgress ==> r.0 == c && !r.1
    ensures !c.scanningInProgress ==> !r.0.scanningInProgress
    ensures c.hasScanned ==> r.0.hasScanned
    ensures r.1 ==> r.0.hasScanned
  {
    if c.scanningInProgress then (c, false)
    else if c.hasScanned && fullScan == 0 then (AfterReads(rescan, true), true)
    else if (fullScan == 2 && env.refreshFails) || env.iterFails then (c, false)
    else (AfterReads(readAll, true), !env.formatScanFails)
  }

  /**
   * A successful call that finds no earlier scan, or that asks for a full
   * scan, has read every device.
   */
  lemma FullScanReadsAll(c: Cache, fullScan: int, env: ScanEnv, readAll: Cache, rescan: Cache)
    ensures var r := Scan(c, fullScan, env, readAll, rescan);
            r.1 && (!c.hasScanned || fullScan != 0) ==> r.0.infos == readAll.infos && r.0.vginfos == readAll.vginfos
  {
  }

  /** After a first scan, a call that is not a full scan reads no device beyond the invalid records. */
  lemma RescanOnlyInvalid(c: Cache, env: ScanEnv, readAll: Cache, rescan: Cache)
    requires !c.scanningInProgress && c.hasScanned
    ensures Scan(c, 0, env, readAll, rescan) == (AfterReads(rescan, true), true)
  {
  }
}
