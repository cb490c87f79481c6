/** How many history rows pruning leaves behind. */
module JobRetention {
  import opened Common
  import opened JobProtocol
  import JobLedger

  /** Members of `s` with at least `k` larger members. */
  ghost function Outranked(s: set<nat>, k: int): set<nat> {
    set x | x in s && |Above(s, x)| >= k
  }

  ghost function Above(s: set<nat>, x: nat): set<nat> {
    set y | y in s && y > x
  }

  lemma {:induction false} OutrankedSize(s: set<nat>, k: nat)
    ensures |Outranked(s, k)| == if |s| >= k then |s| - k else 0
    decreases k
  {
    if k == 0 {
      assert Outranked(s, k) == s;
    } else if s == {} {
      assert Outranked(s, k) == {};
    } else {
      JobLedger.Newest(s);
      var top :| JobLedger.IsNewest(top, s);
      WithoutTop(s, top, k);
      OutrankedSize(s - {top}, k - 1);
    }
  }

  /** Removing the largest member lowers every other rank by one. */
  lemma WithoutTop(s: set<nat>, top: nat, k: nat)
    requires top in s && k > 0 && forall y :: y in s ==> y <= top
    ensures Outranked(s, k) == Outranked(s - {top}, k - 1)
  {
    var rest := s - {top};
    assert Above(s, top) == {};
    forall x | x in rest ensures x in Outranked(s, k) <==> x in Outranked(rest, k - 1) {
      assert Above(s, x) == Above(rest, x) + {top};
    }
  }

  /** One pruning pass deletes every row beyond the newest 256, but at most 256 rows; so it brings
      the history back to 256 rows unless more than 256 attempts crashed since the last pass. */
  lemma PruningBoundsHistory(v: View)
    ensures var n := |v.history|;
            |JobLedger.Pruned(v).history| == if n <= HISTORY_PER_JOB then n
                                             else if n <= HISTORY_PER_JOB + RETENTION_DELETE_BATCH then HISTORY_PER_JOB
                                             else n - RETENTION_DELETE_BATCH
    ensures forall s, t :: s in v.history && t in Stale(v.history) && |Newer(v.history, s)| < HISTORY_PER_JOB ==> t < s
  {
    var keys := v.history.Keys;
    var stale := Stale(v.history);
    forall x | x in keys ensures Newer(v.history, x) == Above(keys, x) {
    }
    assert stale == Outranked(keys, 256) - Outranked(keys, 512);
    assert Outranked(keys, 512) <= Outranked(keys, 256);
    OutrankedSize(keys, 256);
    OutrankedSize(keys, 512);
    assert |stale| == |Outranked(keys, 256)| - |Outranked(keys, 512)|;
    assert JobLedger.Pruned(v).history.Keys == keys - stale;
    assert |keys - stale| == |keys| - |stale|;
    forall s, t | s in v.history && t in stale && |Newer(v.history, s)| < HISTORY_PER_JOB ensures t < s {
      if s <= t {
        assert Newer(v.history, t) <= Newer(v.history, s);
        SubsetSize(Newer(v.history, t), Newer(v.history, s));
      }
    }
  }
}
