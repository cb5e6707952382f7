/** The retention decision of the polling loop: a scan is deleted only when
    its LOC is known and strictly above the threshold. */
module Retention {
  import opened Wrappers

  /** The threshold the deployed script compares against. */
  const LocThreshold: int := 30000000

  /** Delete is the only remedial action; everything else keeps the scan. */
  datatype Decision = Keep | Delete

  function Decide(loc: Option<int>, threshold: int): Decision {
    if loc.Some? && loc.value > threshold then Delete else Keep
  }

  /** The comparison is strict: the threshold itself is kept, one more is
      deleted, and an unresolved LOC is always kept. */
  lemma ThresholdBoundary(threshold: int)
    ensures Decide(Some(threshold), threshold) == Keep
    ensures Decide(Some(threshold + 1), threshold) == Delete
    ensures Decide(None, threshold) == Keep
  {
  }

  /** Deletion is monotone in the LOC: a larger scan than a deleted one is deleted too. */
  lemma DecideMonotone(a: int, b: int, threshold: int)
    requires a <= b
    ensures Decide(Some(a), threshold) == Delete ==> Decide(Some(b), threshold) == Delete
    ensures Decide(Some(b), threshold) == Keep ==> Decide(Some(a), threshold) == Keep
  {
  }
}
