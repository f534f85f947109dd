/**
 The merged cloud the manager keeps, together with the flag that prevents it from
 being downsampled twice. Downsampling itself (a voxel-grid filter) is a parameter.
 */
module MergedCloud {
  import opened Optional

  /** `mergedCloud` (null until something is merged) and `mergedCloudDownsampled`. */
  datatype Merged<C> = Merged(cloud: Option<C>, downsampled: bool)

  /** The state a freshly constructed manager starts in: no merged cloud, flag clear. */
  function Initial<C>(): (m: Merged<C>)
    ensures m.cloud.None? && !m.downsampled
  {
    Merged(None, false)
  }

  /**
   `downsampleMergedCloud`: filters the merged cloud once and raises the flag; with the
   flag already raised it does nothing.
   */
  function Downsample<C>(m: Merged<C>, filter: C -> C): (r: Merged<C>)
    ensures r.downsampled
    ensures m.downsampled ==> r == m
    ensures !m.downsampled ==> r.cloud.Some? == m.cloud.Some?
    ensures !m.downsampled && m.cloud.Some? ==> r.cloud.value == filter(m.cloud.value)
  {
    if m.downsampled then m
    else
      match m.cloud
      case None => Merged(None, true)
      case Some(c) => Merged(Some(filter(c)), true)
  }

  /**
   The guard blocks a repeat: a second downsample, with whatever filter, leaves the
   result of the first unchanged, so the filter is applied at most once.
   */
  lemma DownsampleOnce<C>(m: Merged<C>, f: C -> C, g: C -> C)
    ensures Downsample(Downsample(m, f), g) == Downsample(m, f)
    ensures !m.downsampled && m.cloud.Some? ==> Downsample(Downsample(m, f), f).cloud == Some(f(m.cloud.value))
  {
  }
}
