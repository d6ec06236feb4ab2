/**
  What the read policies and the collection do to a single lookup: when a read is at or below any commit that can
  follow it, and when a lookup survives.
 */
module MvtilGuards {
  import opened Common
  import opened SortedMap
  import S = MvtilServer

  /** The first-interval policy reads at or below the start of the interval, so at or below any later commit. */
  lemma FirstIntervalReadsBelowStart(versions: S.Versions, start: Instant, finish: Instant)
    ensures var c := S.ReadRequest(versions, start, finish, S.LOCK_FIRST_INTERVAL);
      && c.lockStart <= start + 1 && c.start == start && c.finish <= finish
      && forall x :: x in versions && c.lockStart <= x ==> c.finish < x
  {
    var n := AtOrAbove(versions, start + 1);
    forall x | x in versions && Below(versions, start + 1) + 1 <= x ensures n <= x {
      assert start + 1 <= x;
    }
  }

  /** The last-interval policy reads at or below the start exactly when no version lies behind the start. */
  lemma LastIntervalReadsBelowStartIff(versions: S.Versions, start: Instant, finish: Instant)
    requires start <= finish
    ensures S.ReadRequest(versions, start, finish, S.LOCK_LAST_INTERVAL).lockStart <= start + 1
       <==> forall x :: x in versions ==> !(start < x <= finish)
  {
  }

  /** Collection leaves a lookup alone exactly when the next version is above ts, or there is none below to lose. */
  lemma ErasePreservesLookupIff(versions: S.Versions, ts: Instant, t: Instant)
    ensures Below(S.Erase(versions, ts), t + 1) == Below(versions, t + 1)
       <==> ts < AtOrAbove(versions, t + 1) || Below(versions, t + 1) == MIN_TIMESTAMP
  {
    var kept := S.Erase(versions, ts);
    var w := Below(versions, t + 1);
    var n := AtOrAbove(versions, t + 1);
    if ts < n {
      forall y | y in versions && w < y ensures ts < y {
        assert t + 1 <= y;
      }
      assert w in kept && IsBelow(kept, t + 1, w);
    }
  }
}
