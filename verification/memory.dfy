/**
  Memory figures as the dumper derives them from the Docker stats response:
  whole megabytes by integer division, and a usage percentage that is a
  floating-point quotient.
*/
module Memory {
  import opened Wrappers

  const BytesPerMB: nat := 1024 * 1024

  /** `bytes / 1024 / 1024` on unsigned integers. */
  function WholeMB(bytes: nat): (mb: nat)
    ensures mb * BytesPerMB <= bytes < (mb + 1) * BytesPerMB
  {
    bytes / 1024 / 1024
  }

  /**
    A float64 percentage: a finite value (taken exactly), +Inf when the limit is
    zero and the usage is not, NaN when both are zero.
  */
  datatype Percent = Finite(value: real) | PosInf | NaN

  /** `float64(usage) / float64(limit) * 100`. */
  function UsagePercent(usage: nat, limit: nat): (p: Percent)
    ensures p.Finite? <==> limit > 0
    ensures p.NaN? <==> usage == 0 && limit == 0
    ensures p.Finite? ==> p.value >= 0.0 && (p.value >= 100.0 <==> usage >= limit)
  {
    if limit == 0 then (if usage == 0 then NaN else PosInf)
    else Finite(usage as real / limit as real * 100.0)
  }

  /** Go's `p >= threshold` on float64: +Inf passes every threshold, NaN none. */
  predicate AtLeast(p: Percent, threshold: real) {
    match p
    case Finite(v) => v >= threshold
    case PosInf => true
    case NaN => false
  }

  /** What `getContainerMemoryUsage` returns: the usage percentage and the limit in whole MB. */
  datatype Sample = Sample(usage: Percent, limitMB: nat)

  /** A stats request either fails or yields a sample. */
  type SampleOutcome = Result<Sample, string>

  /** The sample computed from the `usage` and `limit` byte counts of a stats response. */
  function SampleOf(usage: nat, limit: nat): Sample {
    Sample(UsagePercent(usage, limit), WholeMB(limit))
  }

  /** 100 MiB used of a 1 GiB limit: 9.765625 percent of 1024 MB. */
  lemma SampleOfOneGiB()
    ensures SampleOf(104857600, 1073741824) == Sample(Finite(9.765625), 1024)
  {
  }

  /** `float64(totalMemory) * threshold / 100`: the threshold in MB for a limit in MB. */
  function ThresholdMB(limitMB: nat, threshold: real): (t: real)
    ensures threshold <= 100.0 ==> t <= limitMB as real
    ensures 0.0 <= threshold ==> 0.0 <= t
  {
    limitMB as real * threshold / 100.0
  }
}
