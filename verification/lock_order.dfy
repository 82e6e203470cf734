/**
 * VG lock ordering: the global lock first, ordinary VG names in strictly
 * increasing byte order, orphan locks last.  A lock request is accepted only
 * when every held lock may precede it.
 */
module LockOrder {
  import opened CacheTypes

  /**
   * strcmp(a, b) < 0 for NUL-free strings: strict lexicographic order on
   * character codes, a proper prefix sorting first.
   */
  predicate StrLess(a: string, b: string)
    decreases |a|
  {
    if |a| == 0 then |b| > 0
    else if |b| == 0 then false
    else if a[0] != b[0] then a[0] < b[0]
    else StrLess(a[1..], b[1..])
  }

  /** Independent definition: a proper prefix, or a smaller character at the first difference. */
  predicate FirstDifferenceLess(a: string, b: string) {
    || (|a| < |b| && a == b[..|a|])
    || exists k :: 0 <= k < |a| && k < |b| && a[..k] == b[..k] && a[k] < b[k]
  }

  lemma {:induction false} StrLessIffFirstDifferenceLess(a: string, b: string)
    ensures StrLess(a, b) <==> FirstDifferenceLess(a, b)
    decreases |a|
  {
    if |a| == 0 {
    } else if |b| == 0 {
    } else if a[0] != b[0] {
      assert a[..0] == b[..0];
      forall k | 0 < k <= |a| && k <= |b|
        ensures a[..k] != b[..k]
      {
        assert a[..k][0] == a[0] && b[..k][0] == b[0];
      }
    } else {
      StrLessIffFirstDifferenceLess(a[1..], b[1..]);
      if FirstDifferenceLess(a[1..], b[1..]) {
        if |a[1..]| < |b[1..]| && a[1..] == b[1..][..|a[1..]|] {
          assert a == b[..|a|];
        } else {
          var k :| 0 <= k < |a[1..]| && k < |b[1..]| && a[1..][..k] == b[1..][..k] && a[1..][k] < b[1..][k];
          assert a[..k + 1] == [a[0]] + a[1..][..k];
          assert b[..k + 1] == [b[0]] + b[1..][..k];
        }
      }
      if FirstDifferenceLess(a, b) {
        if |a| < |b| && a == b[..|a|] {
          assert a[1..] == b[1..][..|a[1..]|];
        } else {
          var k :| 0 <= k < |a| && k < |b| && a[..k] == b[..k] && a[k] < b[k];
          assert k != 0;
          assert a[1..][..k - 1] == a[..k][1..] == b[..k][1..] == b[1..][..k - 1];
          assert a[1..][k - 1] < b[1..][k - 1];
        }
      }
    }
  }

  lemma {:induction false} StrLessIrreflexive(a: string)
    ensures !StrLess(a, a)
    decreases |a|
  {
    if |a| > 0 {
      StrLessIrreflexive(a[1..]);
    }
  }

  lemma {:induction false} StrLessTransitive(a: string, b: string, c: string)
    requires StrLess(a, b) && StrLess(b, c)
    ensures StrLess(a, c)
    decreases |a|
  {
    if |a| > 0 && |b| > 0 && |c| > 0 && a[0] == b[0] && b[0] == c[0] {
      StrLessTransitive(a[1..], b[1..], c[1..]);
    }
  }

  /** Any two different strings are ordered one way, never both ways. */
  lemma {:induction false} StrLessTrichotomy(a: string, b: string)
    ensures a == b || StrLess(a, b) || StrLess(b, a)
    ensures !(StrLess(a, b) && StrLess(b, a))
    decreases |a|
  {
    if |a| > 0 && |b| > 0 && a[0] == b[0] {
      StrLessTrichotomy(a[1..], b[1..]);
      if a[1..] == b[1..] {
        assert a == [a[0]] + a[1..] && b == [b[0]] + b[1..];
      }
    }
  }

  /** _vgname_order_correct: may a lock on `held` be held while `wanted` is requested? */
  predicate OrderCorrect(held: string, wanted: string) {
    if IsGlobalVg(held) then true
    else if IsGlobalVg(wanted) then false
    else if IsOrphanVg(held) then false
    else if IsOrphanVg(wanted) then true
    else StrLess(held, wanted)
  }

  /** Position class of a lock name: global, ordinary VG, orphan. */
  function Rank(name: string): (r: nat)
    ensures r == 0 <==> IsGlobalVg(name)
    ensures r == 2 <==> IsOrphanVg(name)
    ensures r <= 2
  {
    if IsGlobalVg(name) then 0
    else if IsOrphanVg(name) then 2
    else 1
  }

  /**
   * The ordering as a rank comparison: a held global lock allows anything,
   * otherwise the wanted rank must be higher, or both ordinary and in string
   * order.  Orphan locks never allow a further request but the global one.
   */
  lemma OrderCorrectByRank(held: string, wanted: string)
    ensures OrderCorrect(held, wanted) <==>
              || IsGlobalVg(held)
              || Rank(held) < Rank(wanted)
              || (Rank(held) == 1 && Rank(wanted) == 1 && StrLess(held, wanted))
  {
    assert !(IsGlobalVg(held) && IsOrphanVg(held));
    assert !(IsGlobalVg(wanted) && IsOrphanVg(wanted));
  }

  /** Re-requesting a held lock is an ordering violation, except for the global lock. */
  lemma SameNameOrderCorrectIffGlobal(name: string)
    ensures OrderCorrect(name, name) <==> IsGlobalVg(name)
  {
    StrLessIrreflexive(name);
  }

  /**
   * No deadlock between two names: both orders are acceptable only for the
   * global lock with itself, so two lockers agree on the order of any pair.
   */
  lemma BothOrdersOnlyForGlobal(a: string, b: string)
    ensures OrderCorrect(a, b) && OrderCorrect(b, a) <==> IsGlobalVg(a) && IsGlobalVg(b)
  {
    StrLessTrichotomy(a, b);
  }

  /** Two different ordinary VG names are acceptable in exactly one order. */
  lemma OrdinaryNamesTotallyOrdered(a: string, b: string)
    requires a != b
    requires !IsGlobalVg(a) && !IsOrphanVg(a) && !IsGlobalVg(b) && !IsOrphanVg(b)
    ensures OrderCorrect(a, b) != OrderCorrect(b, a)
  {
    StrLessTrichotomy(a, b);
  }

  lemma OrderCorrectTransitive(a: string, b: string, c: string)
    requires OrderCorrect(a, b) && OrderCorrect(b, c)
    ensures OrderCorrect(a, c)
  {
    if !IsGlobalVg(a) && !IsOrphanVg(c) && !IsGlobalVg(c) {
      StrLessTransitive(a, b, c);
    }
  }

  /**
   * lvmcache_verify_lock_order: true exactly when every held lock may
   * precede the requested one.
   */
  method VerifyLockOrder(locks: set<string>, wanted: string) returns (ok: bool)
    ensures ok <==> forall held | held in locks :: OrderCorrect(held, wanted)
  {
    var rest := locks;
    while rest != {}
      invariant rest <= locks
      invariant forall held | held in locks - rest :: OrderCorrect(held, wanted)
      decreases |rest|
    {
      var held :| held in rest;
      if !OrderCorrect(held, wanted) {
        return false;
      }
      rest := rest - {held};
    }
    return true;
  }

  /** A lock order check for an orphan name passes exactly when no orphan lock is held. */
  lemma OrphanRequestNeedsNoOrphanHeld(locks: set<string>, wanted: string)
    requires IsOrphanVg(wanted)
    ensures (forall held | held in locks :: OrderCorrect(held, wanted)) <==>
            (forall held | held in locks :: !IsOrphanVg(held))
  {
    assert !IsGlobalVg(wanted);
  }

  /** Requesting the global lock passes exactly when nothing but the global lock is held. */
  lemma GlobalRequestNeedsOnlyGlobalHeld(locks: set<string>)
    ensures (forall held | held in locks :: OrderCorrect(held, VG_GLOBAL)) <==> locks <= {VG_GLOBAL}
  {
  }

  /** Every earlier name in the sequence may precede every later one. */
  predicate OrderedAcquisition(names: seq<string>) {
    forall i, j | 0 <= i < j < |names| :: OrderCorrect(names[i], names[j])
  }

  /** Checking neighbours is enough: the order is transitive. */
  lemma {:induction false} NeighboursOrderedSuffices(names: seq<string>)
    requires forall i | 0 <= i < |names| - 1 :: OrderCorrect(names[i], names[i + 1])
    ensures OrderedAcquisition(names)
    decreases |names|
  {
    if |names| > 1 {
      var tail := names[1..];
      assert forall i | 0 <= i < |tail| - 1 :: OrderCorrect(tail[i], tail[i + 1]) by {
        forall i | 0 <= i < |tail| - 1
          ensures OrderCorrect(tail[i], tail[i + 1])
        {
          assert tail[i] == names[i + 1] && tail[i + 1] == names[i + 2];
        }
      }
      NeighboursOrderedSuffices(tail);
      forall i, j | 0 <= i < j < |names|
        ensures OrderCorrect(names[i], names[j])
      {
        if i > 0 {
          assert names[i] == tail[i - 1] && names[j] == tail[j - 1];
        } else if j > 1 {
          assert names[1] == tail[0] && names[j] == tail[j - 1];
          OrderCorrectTransitive(names[0], names[1], names[j]);
        }
      }
    }
  }

  /** An accepted sequence of ordinary VG names is strictly increasing, hence repetition-free. */
  lemma OrdinaryAcquisitionStrictlyIncreasing(names: seq<string>, i: int, j: int)
    requires OrderedAcquisition(names)
    requires forall k | 0 <= k < |names| :: !IsGlobalVg(names[k]) && !IsOrphanVg(names[k])
    requires 0 <= i < j < |names|
    ensures StrLess(names[i], names[j]) && names[i] != names[j]
  {
    StrLessIrreflexive(names[i]);
  }
}
