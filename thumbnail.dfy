/** The marker thumbnail of a cluster (components/cluster-thumbnail.tsx). */
module Thumbnail {
  import opened Wrappers
  import opened Photos

  /** The default side of the thumbnail, in pixels. */
  const DefaultSize: int := 96

  /** `Math.floor(r * len)` for a random `r` in [0, 1). */
  function RepresentativeIndex(r: real, len: nat): (i: int)
    requires 0.0 <= r < 1.0
    ensures len > 0 ==> 0 <= i < len
    ensures len == 0 ==> i == 0
  {
    var x := r * (len as real);
    assert 0.0 <= x;
    assert len > 0 ==> x < len as real;
    x.Floor
  }

  /** Every member can be the one shown: `r = k / len` picks index `k`. */
  lemma RepresentativeReachable(len: nat, k: nat)
    requires k < len
    ensures 0.0 <= (k as real) / (len as real) < 1.0
    ensures RepresentativeIndex((k as real) / (len as real), len) == k
  {
    var r := (k as real) / (len as real);
    assert r * (len as real) == k as real;
    assert (len as real) / (len as real) == 1.0;
    assert (k as real) / (len as real) < (len as real) / (len as real);
  }

  /** What the component renders: the shown photo, its size, the count and whether the badge shows. */
  datatype Rendered = Rendered(main: Photo, size: int, count: nat, showBadge: bool)

  /**
   * `ClusterThumbnail`: picks `photos[floor(r * length)]`, renders nothing
   * when that is undefined, and shows the count badge when the count is
   * over one.
   */
  function ClusterThumbnail(photos: seq<Photo>, r: real, size: Option<int>): (out: Option<Rendered>)
    requires 0.0 <= r < 1.0
    ensures out.None? <==> |photos| == 0
    ensures out.Some? ==> out.value.main in photos
    ensures out.Some? ==> out.value.main == photos[RepresentativeIndex(r, |photos|)]
    ensures out.Some? ==> out.value.count == |photos|
    ensures out.Some? ==> (out.value.showBadge <==> |photos| > 1)
    ensures out.Some? ==> (size.None? ==> out.value.size == DefaultSize) && (size.Some? ==> out.value.size == size.value)
  {
    var i := RepresentativeIndex(r, |photos|);
    if 0 <= i < |photos| then
      var count := |photos|;
      Some(Rendered(photos[i], size.GetOr(DefaultSize), count, count > 1))
    else
      None
  }

  /** Every member of a cluster is the thumbnail for some draw of `r`. */
  lemma EveryMemberCanBeShown(photos: seq<Photo>, k: nat)
    requires k < |photos|
    ensures 0.0 <= (k as real) / (|photos| as real) < 1.0
    ensures ClusterThumbnail(photos, (k as real) / (|photos| as real), None) ==
              Some(Rendered(photos[k], DefaultSize, |photos|, |photos| > 1))
  {
    RepresentativeReachable(|photos|, k);
  }
}
