/**
 * The VG-name index of lib/cache/lvmcache.c: duplicate-name precedence when
 * a record joins a same-name chain, removal of a record with promotion of
 * its successor, and membership of device records in VG records.
 */
module VgIndex {
  import opened Maybe
  import opened CacheTypes
  import opened Lookup

  /** No handle occurs twice. */
  predicate Distinct<T(==)>(s: seq<T>) {
    forall j, k | 0 <= j < k < |s| :: s[j] != s[k]
  }

  /** RemoveFirst on a repetition-free sequence removes `x` completely and keeps everything else. */
  lemma {:induction false} RemoveFirstDistinct<T>(s: seq<T>, x: T)
    requires Distinct(s)
    ensures Distinct(RemoveFirst(s, x))
    ensures forall y :: y in RemoveFirst(s, x) <==> y in s && y != x
    decreases |s|
  {
    if |s| > 0 {
      assert Distinct(s[1..]) by {
        forall j, k | 0 <= j < k < |s[1..]|
          ensures s[1..][j] != s[1..][k]
        {
          assert s[1..][j] == s[j + 1] && s[1..][k] == s[k + 1];
        }
      }
      assert forall y :: y in s <==> y == s[0] || y in s[1..];
      if s[0] != x {
        RemoveFirstDistinct(s[1..], x);
        var r := RemoveFirst(s, x);
        assert r == [s[0]] + RemoveFirst(s[1..], x);
        assert s[0] !in s[1..];
        forall j, k | 0 <= j < k < |r|
          ensures r[j] != r[k]
        {
          if j == 0 {
            assert r[k] in RemoveFirst(s[1..], x) by {
              assert r[k] == RemoveFirst(s[1..], x)[k - 1];
            }
          } else {
            assert r[j] == RemoveFirst(s[1..], x)[j - 1] && r[k] == RemoveFirst(s[1..], x)[k - 1];
          }
        }
      } else {
        assert s[0] !in s[1..];
      }
    }
  }

  /** Removing a just-appended element that did not occur before gives back the original. */
  lemma {:induction false} RemoveFirstAppended<T>(s: seq<T>, x: T)
    requires x !in s
    ensures RemoveFirst(s + [x], x) == s
    decreases |s|
  {
    if |s| > 0 {
      assert (s + [x])[1..] == s[1..] + [x];
      RemoveFirstAppended(s[1..], x);
      assert [s[0]] + s[1..] == s;
    }
  }

  // ----- duplicate VG names -----

  /**
   * _insert_vginfo's precedence decision, rule by rule in the source's order:
   * does a new record (exported or not, with `newHost` as creation host)
   * replace `primary` as the head of the same-name chain?
   */
  function NewTakesPrecedence(primary: VgInfo, newExported: bool, newHost: Option<string>,
                              localHost: string): bool
  {
    if !primary.exported && newExported then false
    else if primary.exported && !newExported then true
    else if primary.creationHost == Some(localHost) then false
    else if primary.creationHost.None? && newHost.Some? then true
    else newHost == Some(localHost)
  }

  /**
   * The precedence policy in closed form: the new record wins exactly under
   * one of three rules — the old primary is exported and the new one is not;
   * the old one has no creation host and the new one has; the new one was
   * created on this host — provided the two earlier "keep" rules (existing
   * unexported beats new exported, existing created here stays) do not
   * apply.
   */
  lemma PrecedenceRules(primary: VgInfo, newExported: bool, newHost: Option<string>, localHost: string)
    ensures NewTakesPrecedence(primary, newExported, newHost, localHost) <==>
              || (primary.exported && !newExported)
              || (&& primary.exported == newExported
                  && primary.creationHost != Some(localHost)
                  && ((primary.creationHost.None? && newHost.Some?) || newHost == Some(localHost)))
  {
  }

  /** An unexported existing record is never displaced by an exported newcomer. */
  lemma ExportedNewcomerNeverWins(primary: VgInfo, newHost: Option<string>, localHost: string)
    requires !primary.exported
    ensures !NewTakesPrecedence(primary, true, newHost, localHost)
  {
  }

  /**
   * _insert_vginfo: record `v` (holding `vi`) joins the chain of its name.
   * Without a primary it becomes the only entry; a winner heads the chain,
   * followed by the old one; a loser is appended at the tail.
   */
  function InsertVgInfo(c: Cache, v: VgRef, vi: VgInfo, newExported: bool, newHost: Option<string>,
                        localHost: string): (r: Cache)
    ensures r.vginfos == c.vginfos[v := vi]
    ensures forall n | n != vi.name :: ChainOf(r, n) == ChainOf(c, n)
    ensures Primary(c, vi.name).None? ==> ChainOf(r, vi.name) == [v]
    ensures Primary(c, vi.name).Some? ==>
              var p := Primary(c, vi.name).value;
              if NewTakesPrecedence(c.vginfos[p], newExported, newHost, localHost)
              then ChainOf(r, vi.name) == [v] + ChainOf(c, vi.name)
              else ChainOf(r, vi.name) == ChainOf(c, vi.name) + [v]
    ensures r == c.(vginfos := r.vginfos, nameIndex := r.nameIndex)
  {
    var chain := ChainOf(c, vi.name);
    var chain' := match Primary(c, vi.name)
      case None => [v]
      case Some(p) =>
        if NewTakesPrecedence(c.vginfos[p], newExported, newHost, localHost) then [v] + chain
        else chain + [v];
    c.(vginfos := c.vginfos[v := vi], nameIndex := c.nameIndex[vi.name := chain'])
  }

  /**
   * After an insertion into a non-empty chain the primary is the new record
   * exactly when it takes precedence; otherwise the old primary stays.
   */
  lemma InsertedPrimary(c: Cache, v: VgRef, vi: VgInfo, newExported: bool, newHost: Option<string>,
                        localHost: string)
    requires Primary(c, vi.name).Some? && v != Primary(c, vi.name).value
    ensures var p := Primary(c, vi.name).value;
            var r := InsertVgInfo(c, v, vi, newExported, newHost, localHost);
            && Primary(r, vi.name).Some?
            && (Primary(r, vi.name) == Some(v) <==> NewTakesPrecedence(c.vginfos[p], newExported, newHost, localHost))
            && (Primary(r, vi.name) != Some(v) ==> Primary(r, vi.name) == Some(p))
  {
  }

  /**
   * _free_vginfo: the record leaves the name chain (its successor becomes
   * primary when it was the primary; the name disappears with the last
   * entry), the VG-id index when it is indexed there under its own id, the
   * VG list and the record map.
   */
  function FreeVgInfo(c: Cache, v: VgRef): (r: Cache)
    requires v in c.vginfos
    ensures r.vginfos == c.vginfos - {v}
    ensures ChainOf(r, c.vginfos[v].name) == ChainWithout(c, c.vginfos[v].name, v)
    ensures forall n | n != c.vginfos[v].name :: ChainOf(r, n) == ChainOf(c, n)
    ensures forall k | k in r.vgidIndex :: k in c.vgidIndex && r.vgidIndex[k] == c.vgidIndex[k]
    ensures forall k | k in c.vgidIndex && k != IdKey(c.vginfos[v].vgid) :: k in r.vgidIndex
    ensures var key := IdKey(c.vginfos[v].vgid);
            key in c.vgidIndex ==> (key !in r.vgidIndex <==> |c.vginfos[v].vgid| > 0 && c.vgidIndex[key] == v)
    ensures r.vgList == RemoveFirst(c.vgList, v)
    ensures r == c.(vginfos := r.vginfos, nameIndex := r.nameIndex, vgidIndex := r.vgidIndex, vgList := r.vgList)
  {
    var vi := c.vginfos[v];
    c.(vginfos := c.vginfos - {v},
       nameIndex := SetChain(c.nameIndex, vi.name, ChainWithout(c, vi.name, v)),
       vgidIndex := VgidIndexWithout(c, v),
       vgList := RemoveFirst(c.vgList, v))
  }

  /**
   * The chain of `name` once `v` has left it: the successor takes over when
   * `v` was the primary, otherwise only the entry of `v` goes.
   */
  function ChainWithout(c: Cache, name: string, v: VgRef): (r: seq<VgRef>)
    ensures |r| <= |ChainOf(c, name)|
    ensures forall x | x in r :: x in ChainOf(c, name)
  {
    var chain := ChainOf(c, name);
    if Primary(c, name) == Some(v) then chain[1..] else RemoveFirst(chain, v)
  }

  /** The name index with `chain` for `name`; an empty chain removes the name. */
  function SetChain(index: map<string, seq<VgRef>>, name: string, chain: seq<VgRef>)
    : (r: map<string, seq<VgRef>>)
    ensures name in r <==> |chain| > 0
    ensures name in r ==> r[name] == chain
    ensures forall n | n != name :: (n in r <==> n in index) && (n in r ==> r[n] == index[n])
  {
    if |chain| > 0 then index[name := chain] else index - {name}
  }

  /** The VG-id index without the entry of `v`, dropped only when it points at `v`. */
  function VgidIndexWithout(c: Cache, v: VgRef): (r: map<string, VgRef>)
    requires v in c.vginfos
    ensures forall k | k in r :: k in c.vgidIndex && r[k] == c.vgidIndex[k]
    ensures forall k | k in c.vgidIndex && c.vgidIndex[k] != v :: k in r
    ensures forall k | k in c.vgidIndex && k != IdKey(c.vginfos[v].vgid) :: k in r
    ensures var key := IdKey(c.vginfos[v].vgid);
            key in c.vgidIndex ==> (key !in r <==> |c.vginfos[v].vgid| > 0 && c.vgidIndex[key] == v)
  {
    var vgid := c.vginfos[v].vgid;
    if |vgid| > 0 && VgInfoFromVgid(c, Some(vgid)) == Some(v) then c.vgidIndex - {IdKey(vgid)}
    else c.vgidIndex
  }

  /**
   * Removing the primary of a chain with further entries promotes the next
   * one: a name lookup then finds the old second entry.
   */
  lemma FreePromotesNext(c: Cache, v: VgRef)
    requires v in c.vginfos
    requires var chain := ChainOf(c, c.vginfos[v].name);
             |chain| > 1 && chain[0] == v && chain[1] in c.vginfos && chain[1] != v
    ensures var name := c.vginfos[v].name;
            Primary(FreeVgInfo(c, v), name) == Some(ChainOf(c, name)[1])
  {
  }

  // ----- index invariants -----

  /**
   * The name index is consistent: every chain is non-empty and
   * repetition-free and lists records of that name; the VG-id index points
   * at records; every record is listed in the chain of its name.
   */
  predicate ChainsWf(c: Cache) {
    ChainsDistinct(c) && ChainsNamed(c) && RecordsListed(c)
  }

  /** Every chain is non-empty and lists no record twice. */
  predicate ChainsDistinct(c: Cache) {
    forall n | n in c.nameIndex :: |c.nameIndex[n]| > 0 && Distinct(c.nameIndex[n])
  }

  /** Every chain entry is a record carrying the chain's name. */
  predicate ChainsNamed(c: Cache) {
    forall n, k | n in c.nameIndex && 0 <= k < |c.nameIndex[n]| ::
      c.nameIndex[n][k] in c.vginfos && c.vginfos[c.nameIndex[n][k]].name == n
  }

  /** Every record is listed in the chain of its name. */
  predicate RecordsListed(c: Cache) {
    forall v | v in c.vginfos :: v in ChainOf(c, c.vginfos[v].name)
  }

  /**
   * Inserting a record that is new to the cache keeps the name index
   * consistent, and removing it again restores every chain.
   */
  lemma InsertKeepsChainsWf(c: Cache, v: VgRef, vi: VgInfo, newExported: bool, newHost: Option<string>,
                            localHost: string)
    requires ChainsWf(c) && v !in c.vginfos
    ensures ChainsWf(InsertVgInfo(c, v, vi, newExported, newHost, localHost))
  {
    assert v !in ChainOf(c, vi.name);
    InsertKeepsChainsDistinct(c, v, vi, newExported, newHost, localHost);
    InsertKeepsChainsNamed(c, v, vi, newExported, newHost, localHost);
    InsertKeepsRecordsListed(c, v, vi, newExported, newHost, localHost);
  }

  lemma InsertKeepsChainsDistinct(c: Cache, v: VgRef, vi: VgInfo, newExported: bool, newHost: Option<string>,
                                  localHost: string)
    requires ChainsDistinct(c) && v !in ChainOf(c, vi.name)
    ensures ChainsDistinct(InsertVgInfo(c, v, vi, newExported, newHost, localHost))
  {
    var r := InsertVgInfo(c, v, vi, newExported, newHost, localHost);
    var chain := ChainOf(c, vi.name);
    assert Distinct(chain);
    PrependDistinct(chain, v);
    AppendDistinct(chain, v);
    forall n | n in r.nameIndex
      ensures |r.nameIndex[n]| > 0 && Distinct(r.nameIndex[n])
    {
      if n != vi.name {
        assert r.nameIndex[n] == c.nameIndex[n];
      }
    }
  }

  lemma PrependDistinct<T>(s: seq<T>, x: T)
    requires Distinct(s) && x !in s
    ensures Distinct([x] + s)
  {
    forall j, k | 0 <= j < k < |[x] + s|
      ensures ([x] + s)[j] != ([x] + s)[k]
    {
      assert ([x] + s)[k] == s[k - 1];
      if j > 0 {
        assert ([x] + s)[j] == s[j - 1];
      }
    }
  }

  lemma AppendDistinct<T>(s: seq<T>, x: T)
    requires Distinct(s) && x !in s
    ensures Distinct(s + [x])
  {
    forall j, k | 0 <= j < k < |s + [x]|
      ensures (s + [x])[j] != (s + [x])[k]
    {
      assert (s + [x])[j] == s[j];
    }
  }

  lemma InsertKeepsRecordsListed(c: Cache, v: VgRef, vi: VgInfo, newExported: bool, newHost: Option<string>,
                                 localHost: string)
    requires RecordsListed(c) && ChainsNamed(c) && v !in c.vginfos
    ensures RecordsListed(InsertVgInfo(c, v, vi, newExported, newHost, localHost))
  {
    var r := InsertVgInfo(c, v, vi, newExported, newHost, localHost);
    var chain := ChainOf(c, vi.name);
    var chain' := ChainOf(r, vi.name);
    assert |chain| > 0 ==> chain[0] in c.vginfos;
    assert v in chain' && forall x | x in chain :: x in chain';
    forall w | w in r.vginfos
      ensures w in ChainOf(r, r.vginfos[w].name)
    {
      if w != v && c.vginfos[w].name == vi.name {
        assert w in chain;
      }
    }
  }

  lemma InsertKeepsChainsNamed(c: Cache, v: VgRef, vi: VgInfo, newExported: bool, newHost: Option<string>,
                               localHost: string)
    requires ChainsWf(c) && v !in c.vginfos
    ensures ChainsNamed(InsertVgInfo(c, v, vi, newExported, newHost, localHost))
  {
    var r := InsertVgInfo(c, v, vi, newExported, newHost, localHost);
    var chain := ChainOf(c, vi.name);
    var chain' := r.nameIndex[vi.name];
    assert forall k | 0 <= k < |chain'| :: chain'[k] == v || chain'[k] in chain;
  }

  lemma FreeUndoesInsert(c: Cache, v: VgRef, vi: VgInfo, newExported: bool, newHost: Option<string>,
                         localHost: string)
    requires ChainsWf(c) && v !in c.vginfos
    ensures var r := FreeVgInfo(InsertVgInfo(c, v, vi, newExported, newHost, localHost), v);
            r.vginfos == c.vginfos && r.nameIndex == c.nameIndex
  {
    var chain := ChainOf(c, vi.name);
    assert v !in chain;
    assert |chain| > 0 ==> chain[0] in c.vginfos;
    assert vi.name in c.nameIndex ==> |chain| > 0;
    LeavingRestoresIndex(c, v, vi, newExported, newHost, localHost);
  }

  /** A record that has just joined a chain leaves the chain as it was before. */
  lemma LeavingRestoresIndex(c: Cache, v: VgRef, vi: VgInfo, newExported: bool, newHost: Option<string>,
                             localHost: string)
    requires v !in c.vginfos
    requires var chain := ChainOf(c, vi.name);
             && v !in chain
             && (|chain| > 0 ==> chain[0] in c.vginfos)
             && (vi.name in c.nameIndex ==> |chain| > 0)
    ensures var r := FreeVgInfo(InsertVgInfo(c, v, vi, newExported, newHost, localHost), v);
            r.vginfos == c.vginfos && r.nameIndex == c.nameIndex
  {
    var c1 := InsertVgInfo(c, v, vi, newExported, newHost, localHost);
    var chain := ChainOf(c, vi.name);
    LeavingRestoresChain(c, v, vi, newExported, newHost, localHost);
    if |chain| > 0 {
      SameEntryStored(c.nameIndex, vi.name);
      assert c1.nameIndex[vi.name := chain] == c.nameIndex;
    } else {
      AddedEntryRemoved(c.nameIndex, vi.name, ChainOf(c1, vi.name));
    }
    AddedEntryRemoved(c.vginfos, v, vi);
  }

  lemma LeavingRestoresChain(c: Cache, v: VgRef, vi: VgInfo, newExported: bool, newHost: Option<string>,
                             localHost: string)
    requires v !in c.vginfos
    requires var chain := ChainOf(c, vi.name);
             v !in chain && (|chain| > 0 ==> chain[0] in c.vginfos)
    ensures ChainWithout(InsertVgInfo(c, v, vi, newExported, newHost, localHost), vi.name, v)
         == ChainOf(c, vi.name)
  {
    var chain := ChainOf(c, vi.name);
    if Primary(c, vi.name).Some? {
      var p := Primary(c, vi.name).value;
      if !NewTakesPrecedence(c.vginfos[p], newExported, newHost, localHost) {
        RemoveFirstAppended(chain, v);
      }
    }
  }

  /** Removing a record keeps the name index consistent. */
  lemma FreeKeepsChainsWf(c: Cache, v: VgRef)
    requires ChainsWf(c) && v in c.vginfos
    ensures ChainsWf(FreeVgInfo(c, v))
  {
    assert v in ChainOf(c, c.vginfos[v].name);
    FreeKeepsChainsDistinct(c, v);
    FreeKeepsChainsNamed(c, v);
    var r := FreeVgInfo(c, v);
    forall w | w in r.vginfos
      ensures w in ChainOf(r, r.vginfos[w].name)
    {
      var name := c.vginfos[v].name;
      if c.vginfos[w].name == name {
        assert w in ChainOf(c, name);
        FreeKeepsOthersListed(c, v, w);
      }
    }
  }

  lemma FreeKeepsChainsDistinct(c: Cache, v: VgRef)
    requires ChainsDistinct(c) && v in c.vginfos && v in ChainOf(c, c.vginfos[v].name)
    ensures ChainsDistinct(FreeVgInfo(c, v))
  {
    var name := c.vginfos[v].name;
    var chain := ChainOf(c, name);
    var r := FreeVgInfo(c, v);
    RemoveFirstDistinct(chain, v);
    assert chain[0] == v ==> chain[1..] == RemoveFirst(chain, v);
    assert chain[0] != v ==> chain[0] in RemoveFirst(chain, v);
    forall n | n in r.nameIndex
      ensures |r.nameIndex[n]| > 0 && Distinct(r.nameIndex[n])
    {
      if n != name {
        assert r.nameIndex[n] == c.nameIndex[n];
      }
    }
  }

  lemma FreeKeepsChainsNamed(c: Cache, v: VgRef)
    requires ChainsNamed(c) && v in c.vginfos && Distinct(ChainOf(c, c.vginfos[v].name))
    ensures ChainsNamed(FreeVgInfo(c, v))
  {
    var r := FreeVgInfo(c, v);
    var name := c.vginfos[v].name;
    ChainWithoutExcludes(c, name, v);
    forall n, k | n in r.nameIndex && 0 <= k < |r.nameIndex[n]|
      ensures r.nameIndex[n][k] in r.vginfos && r.vginfos[r.nameIndex[n][k]].name == n
    {
      if n != name {
        assert r.nameIndex[n] == c.nameIndex[n];
        assert c.nameIndex[n][k] != v;
      } else {
        assert r.nameIndex[n][k] in ChainOf(c, name);
      }
    }
  }

  /** A chain that lists no record twice no longer lists `v` once `v` has left it. */
  lemma ChainWithoutExcludes(c: Cache, name: string, v: VgRef)
    requires Distinct(ChainOf(c, name))
    ensures v !in ChainWithout(c, name, v) && Distinct(ChainWithout(c, name, v))
  {
    var chain := ChainOf(c, name);
    RemoveFirstDistinct(chain, v);
    if Primary(c, name) == Some(v) {
      assert forall k | 1 <= k < |chain| :: chain[k] != v;
      assert forall j, k | 0 <= j < k < |chain[1..]| :: chain[1..][j] == chain[j + 1] && chain[1..][k] == chain[k + 1];
    }
  }


  /** A record of the same name as the removed one stays listed in the chain. */
  lemma FreeKeepsOthersListed(c: Cache, v: VgRef, w: VgRef)
    requires v in c.vginfos && w in c.vginfos && w != v
    requires c.vginfos[w].name == c.vginfos[v].name && w in ChainOf(c, c.vginfos[w].name)
    ensures w in ChainOf(FreeVgInfo(c, v), c.vginfos[w].name)
  {
    var chain := ChainOf(c, c.vginfos[v].name);
    if Primary(c, c.vginfos[v].name) == Some(v) {
      assert w in chain[1..];
    }
  }


  // ----- membership -----

  /**
   * Device records and VG records agree: each member of a VG points back at
   * it, each record that names a VG is among its members, and no member is
   * listed twice.
   */
  predicate MembershipWf(c: Cache) {
    && (forall v, k | v in c.vginfos && 0 <= k < |c.vginfos[v].members| ::
          c.vginfos[v].members[k] in c.infos && c.infos[c.vginfos[v].members[k]].vg == Some(v))
    && (forall i | i in c.infos && c.infos[i].vg.Some? ::
          c.infos[i].vg.value in c.vginfos && i in c.vginfos[c.infos[i].vg.value].members)
    && (forall v | v in c.vginfos :: Distinct(c.vginfos[v].members))
  }

  /** _vginfo_detach_info: the record leaves its VG's member list and points at no VG. */
  function Detach(c: Cache, i: InfoId): (r: Cache)
    ensures i in c.infos ==> r.infos == UnlinkInfo(c.infos, i)
    ensures i !in c.infos ==> r == c
    ensures i in c.infos && c.infos[i].vg.Some? && c.infos[i].vg.value in c.vginfos ==>
              r.vginfos == DropMember(c.vginfos, c.infos[i].vg.value, i)
    ensures !(i in c.infos && c.infos[i].vg.Some? && c.infos[i].vg.value in c.vginfos) ==> r.vginfos == c.vginfos
    ensures r.infos.Keys == c.infos.Keys && r.vginfos.Keys == c.vginfos.Keys
    ensures r == c.(infos := r.infos, vginfos := r.vginfos)
  {
    if i !in c.infos then c
    else
      var info := c.infos[i];
      var vginfos :=
        if info.vg.Some? && info.vg.value in c.vginfos then DropMember(c.vginfos, info.vg.value, i)
        else c.vginfos;
      c.(infos := UnlinkInfo(c.infos, i), vginfos := vginfos)
  }

  /** Device record `i` pointing at no VG. */
  function UnlinkInfo(infos: map<InfoId, Info>, i: InfoId): (r: map<InfoId, Info>)
    requires i in infos
    ensures r.Keys == infos.Keys && r[i] == infos[i].(vg := None)
    ensures forall j | j in infos && j != i :: r[j] == infos[j]
  {
    infos[i := infos[i].(vg := None)]
  }

  /** VG record `v` with `i` gone from its members. */
  function DropMember(vginfos: map<VgRef, VgInfo>, v: VgRef, i: InfoId): (r: map<VgRef, VgInfo>)
    requires v in vginfos
    ensures r.Keys == vginfos.Keys && r[v] == vginfos[v].(members := RemoveFirst(vginfos[v].members, i))
    ensures forall w | w in vginfos && w != v :: r[w] == vginfos[w]
  {
    vginfos[v := vginfos[v].(members := RemoveFirst(vginfos[v].members, i))]
  }


  /** _vginfo_attach_info: the record joins the tail of the VG's member list. */
  function Attach(c: Cache, v: VgRef, i: InfoId): (r: Cache)
    ensures v in c.vginfos && i in c.infos ==>
              r.infos == LinkInfo(c.infos, i, v) && r.vginfos == AddMember(c.vginfos, v, i)
    ensures !(v in c.vginfos && i in c.infos) ==> r == c
    ensures r.infos.Keys == c.infos.Keys && r.vginfos.Keys == c.vginfos.Keys
    ensures r == c.(infos := r.infos, vginfos := r.vginfos)
  {
    if v in c.vginfos && i in c.infos then
      c.(infos := LinkInfo(c.infos, i, v), vginfos := AddMember(c.vginfos, v, i))
    else c
  }

  /** Device record `i` pointing at VG record `v`. */
  function LinkInfo(infos: map<InfoId, Info>, i: InfoId, v: VgRef): (r: map<InfoId, Info>)
    requires i in infos
    ensures r.Keys == infos.Keys && r[i] == infos[i].(vg := Some(v))
    ensures forall j | j in infos && j != i :: r[j] == infos[j]
  {
    infos[i := infos[i].(vg := Some(v))]
  }

  /** VG record `v` with `i` appended to its members. */
  function AddMember(vginfos: map<VgRef, VgInfo>, v: VgRef, i: InfoId): (r: map<VgRef, VgInfo>)
    requires v in vginfos
    ensures r.Keys == vginfos.Keys && r[v] == vginfos[v].(members := vginfos[v].members + [i])
    ensures forall w | w in vginfos && w != v :: r[w] == vginfos[w]
  {
    vginfos[v := vginfos[v].(members := vginfos[v].members + [i])]
  }


  /** A listed member points back at its VG. */
  lemma MemberPointsBack(c: Cache, w: VgRef, i: InfoId)
    requires MembershipWf(c) && w in c.vginfos
    ensures i in c.vginfos[w].members ==> i in c.infos && c.infos[i].vg == Some(w)
  {
    if i in c.vginfos[w].members {
      var k :| 0 <= k < |c.vginfos[w].members| && c.vginfos[w].members[k] == i;
    }
  }

  lemma DetachKeepsMembershipWf(c: Cache, i: InfoId)
    requires MembershipWf(c)
    ensures MembershipWf(Detach(c, i))
    ensures var r := Detach(c, i); forall w | w in r.vginfos :: i !in r.vginfos[w].members
  {
    if i in c.infos {
      var r := Detach(c, i);
      var info := c.infos[i];
      if info.vg.Some? {
        var v := info.vg.value;
        RemoveFirstDistinct(c.vginfos[v].members, i);
        forall w | w in r.vginfos && w != v
          ensures i !in r.vginfos[w].members
        {
          MemberPointsBack(c, w, i);
        }
        forall w, k | w in r.vginfos && 0 <= k < |r.vginfos[w].members|
          ensures r.vginfos[w].members[k] in r.infos && r.infos[r.vginfos[w].members[k]].vg == Some(w)
        {
          assert r.vginfos[w].members[k] in c.vginfos[w].members;
        }
      } else {
        forall w | w in r.vginfos
          ensures i !in r.vginfos[w].members
        {
          MemberPointsBack(c, w, i);
        }
      }
    }
  }

  lemma AttachKeepsMembershipWf(c: Cache, v: VgRef, i: InfoId)
    requires MembershipWf(c)
    requires i in c.infos ==> c.infos[i].vg.None?
    ensures MembershipWf(Attach(c, v, i))
  {
    if v in c.vginfos && i in c.infos {
      var r := Attach(c, v, i);
      forall w | w in c.vginfos
        ensures i !in c.vginfos[w].members
      {
        MemberPointsBack(c, w, i);
      }
      assert Distinct(r.vginfos[v].members) by {
        var ms := c.vginfos[v].members + [i];
        forall j, k | 0 <= j < k < |ms|
          ensures ms[j] != ms[k]
        {
          if k == |ms| - 1 {
            assert ms[j] in c.vginfos[v].members;
          }
        }
      }
    }
  }

  /**
   * _drop_vginfo: detach the record (if any), then free the VG record unless
   * it is absent, an orphan VG, or still has members.
   */
  function DropVgInfo(c: Cache, info: Option<InfoId>, v: Option<VgRef>): (r: Cache)
    ensures v.Some? && v.value in c.vginfos && !IsOrphanVg(c.vginfos[v.value].name) ==>
              (v.value in r.vginfos <==> |DetachIfAny(c, info).vginfos[v.value].members| > 0)
    ensures r.infos.Keys == c.infos.Keys && r.vginfos.Keys <= c.vginfos.Keys
    ensures info.Some? && info.value in c.infos ==> r.infos[info.value] == c.infos[info.value].(vg := None)
    ensures forall i | i in c.infos && Some(i) != info :: r.infos[i] == c.infos[i]
    ensures forall w | w in c.vginfos && Some(w) != v ::
              w in r.vginfos && r.vginfos[w] == c.vginfos[w].(members := r.vginfos[w].members)
    ensures v.Some? && v.value in c.vginfos && IsOrphanVg(c.vginfos[v.value].name) ==> v.value in r.vginfos
    ensures r == c.(infos := r.infos, vginfos := r.vginfos, nameIndex := r.nameIndex,
                    vgidIndex := r.vgidIndex, vgList := r.vgList)
  {
    var c1 := DetachIfAny(c, info);
    if v.None? || v.value !in c1.vginfos || IsOrphanVg(c1.vginfos[v.value].name)
       || |c1.vginfos[v.value].members| > 0
    then c1
    else FreeVgInfo(c1, v.value)
  }

  /**
   * The optional detach that starts _drop_vginfo: it touches only the
   * detached record and the member list of its VG.
   */
  function DetachIfAny(c: Cache, info: Option<InfoId>): (r: Cache)
    ensures info.None? ==> r == c
    ensures info.Some? ==> r == Detach(c, info.value)
    ensures r.infos.Keys == c.infos.Keys && r.vginfos.Keys == c.vginfos.Keys
    ensures info.Some? && info.value in c.infos ==> r.infos[info.value] == c.infos[info.value].(vg := None)
    ensures forall i | i in c.infos && Some(i) != info :: r.infos[i] == c.infos[i]
    ensures forall w | w in c.vginfos :: r.vginfos[w] == c.vginfos[w].(members := r.vginfos[w].members)
    ensures r == c.(infos := r.infos, vginfos := r.vginfos)
  {
    if info.None? then c
    else
      DetachFrame(c, info.value);
      Detach(c, info.value)
  }

  /** Detaching touches only the detached record and the member list of its VG. */
  lemma DetachFrame(c: Cache, i: InfoId)
    ensures var c1 := Detach(c, i);
            && (i in c.infos ==> c1.infos[i] == c.infos[i].(vg := None))
            && (forall j | j in c.infos && j != i :: c1.infos[j] == c.infos[j])
            && (forall w | w in c.vginfos :: c1.vginfos[w] == c.vginfos[w].(members := c1.vginfos[w].members))
  {
    if i in c.infos {
      var c1 := Detach(c, i);
      assert c1.infos == UnlinkInfo(c.infos, i);
      if c.infos[i].vg.Some? && c.infos[i].vg.value in c.vginfos {
        assert c1.vginfos == DropMember(c.vginfos, c.infos[i].vg.value, i);
      } else {
        assert c1.vginfos == c.vginfos;
      }
    }
  }

  /**
   * Orphan retention: an orphan VG record survives dropping, even when it
   * has lost its last member; any other record is removed exactly when no
   * member is left.
   */
  lemma OrphanRecordsSurviveDrop(c: Cache, info: Option<InfoId>, v: VgRef)
    requires v in c.vginfos
    ensures var r := DropVgInfo(c, info, Some(v));
            var left := DetachIfAny(c, info);
            && (IsOrphanVg(c.vginfos[v].name) ==> v in r.vginfos)
            && (!IsOrphanVg(c.vginfos[v].name) ==> (v in r.vginfos <==> |left.vginfos[v].members| > 0))
  {
    var left := DetachIfAny(c, info);
    assert v in left.vginfos && left.vginfos[v].name == c.vginfos[v].name;
    if !IsOrphanVg(left.vginfos[v].name) && |left.vginfos[v].members| == 0 {
      assert FreeVgInfo(left, v).vginfos == left.vginfos - {v};
    }
  }

  /** Dropping a VG record (without detaching a device) keeps the name index consistent. */
  lemma DropKeepsChainsWf(c: Cache, v: Option<VgRef>)
    requires ChainsWf(c)
    ensures ChainsWf(DropVgInfo(c, None, v))
  {
    if v.Some? && v.value in c.vginfos && !IsOrphanVg(c.vginfos[v.value].name)
       && |c.vginfos[v.value].members| == 0 {
      FreeKeepsChainsWf(c, v.value);
    }
  }

  /** Dropping keeps device records and VG records in agreement. */
  lemma DropKeepsMembershipWf(c: Cache, info: Option<InfoId>, v: Option<VgRef>)
    requires MembershipWf(c)
    ensures MembershipWf(DropVgInfo(c, info, v))
  {
    var c1 := DetachIfAny(c, info);
    if info.Some? {
      DetachKeepsMembershipWf(c, info.value);
    }
    if v.Some? && v.value in c1.vginfos && !IsOrphanVg(c1.vginfos[v.value].name)
       && |c1.vginfos[v.value].members| == 0 {
      FreeKeepsMembershipWf(c1, v.value);
    }
  }

  /** Removing a VG record without members keeps device records and VG records in agreement. */
  lemma FreeKeepsMembershipWf(c: Cache, v: VgRef)
    requires MembershipWf(c) && v in c.vginfos && |c.vginfos[v].members| == 0
    ensures MembershipWf(FreeVgInfo(c, v))
  {
    var r := FreeVgInfo(c, v);
    forall i | i in r.infos && r.infos[i].vg.Some?
      ensures r.infos[i].vg.value in r.vginfos && i in r.vginfos[r.infos[i].vg.value].members
    {
      assert r.infos[i].vg.value != v;
    }
  }
}
