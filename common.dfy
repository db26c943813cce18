/** Units of time and small arithmetic shared by the whole model. */
module Common {
  const SecondsPerHour: int := 3600
  const SecondsPerDay: int := 86400

  function Max(a: int, b: int): int { if a < b then b else a }

  function Min(a: int, b: int): int { if a < b then a else b }

  /** The whole numbers `lo..hi`, both included. */
  function Span(lo: int, hi: int): (s: set<int>)
    ensures forall n :: n in s <==> lo <= n <= hi
    ensures |s| == Max(0, hi - lo + 1)
    decreases hi - lo
  {
    if hi < lo then {} else Span(lo, hi - 1) + {hi}
  }

  /** Two runs of whole numbers meet in the run from the later start to the earlier end. */
  lemma SpansIntersect(lo1: int, hi1: int, lo2: int, hi2: int)
    ensures Span(lo1, hi1) * Span(lo2, hi2) == Span(Max(lo1, lo2), Min(hi1, hi2))
  {
  }
}
