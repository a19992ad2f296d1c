/** The single "same event" predicate used by both consolidation and comparison. */
module TimezoneUtils {
  import opened Weight

  function Abs(x: int): (r: nat)
    ensures r == x || r == -x
  {
    if x < 0 then -x else x
  }

  /** Two instants denote the same event when they are at most `toleranceSeconds` apart. */
  predicate TimestampsMatch(ts1: Timestamp, ts2: Timestamp, toleranceSeconds: int)
  {
    Abs(ts1 - ts2) <= toleranceSeconds
  }

  /** The match window is closed: both ends are included. */
  lemma MatchWindow(ts1: Timestamp, ts2: Timestamp, s: int)
    ensures TimestampsMatch(ts1, ts2, s) <==> ts2 - s <= ts1 <= ts2 + s
  {
  }

  lemma MatchSymmetric(ts1: Timestamp, ts2: Timestamp, s: int)
    ensures TimestampsMatch(ts1, ts2, s) == TimestampsMatch(ts2, ts1, s)
  {
  }

  lemma MatchReflexive(ts: Timestamp, s: int)
    requires s >= 0
    ensures TimestampsMatch(ts, ts, s)
  {
  }

  /** Widening the tolerance never loses a match. */
  lemma MatchMonotone(ts1: Timestamp, ts2: Timestamp, s: int, s': int)
    requires TimestampsMatch(ts1, ts2, s) && s <= s'
    ensures TimestampsMatch(ts1, ts2, s')
  {
  }

  lemma NegativeToleranceNeverMatches(ts1: Timestamp, ts2: Timestamp, s: int)
    requires s < 0
    ensures !TimestampsMatch(ts1, ts2, s)
  {
  }
}
