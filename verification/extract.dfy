/**
 * `extract_cluster_color_values`: walks the histogram and the centroids in
 * step and keeps one `{percent, rgb}` record per pair, dropping near-black
 * and near-white clusters when background filtering is on.
 */
module Extract {
  import opened Colors

  /** A cluster whose channel sum is at most this is treated as background. */
  const DarkLimit := 15
  /** A cluster whose channel sum is at least this is treated as background. */
  const LightLimit := 750

  /** The `total` accumulated over a centroid's channels is `r + g + b`. */
  lemma ChannelSum(c: Rgb)
    ensures Sum(Channels(c)) == c.r + c.g + c.b
  {
    var ch := Channels(c);
    assert Sum(ch[..2][..1]) == c.r by {
      assert ch[..2][..1] == [c.r];
      assert [c.r][..0] == [];
    }
    assert Sum(ch[..2]) == c.r + c.g;
    assert ch[..3][..2] == ch[..2] && ch[..3] == ch;
  }

  /** A centroid lies in the foreground band: 15 < r + g + b < 750. */
  predicate IsForeground(c: Rgb)
  {
    DarkLimit < c.r + c.g + c.b < LightLimit
  }

  /** Whether the extractor keeps a cluster with this centroid. */
  predicate Keeps(ignoreBackground: bool, c: Rgb)
  {
    !ignoreBackground || IsForeground(c)
  }

  /** The dictionary the extractor appends: only `percent` and `rgb` are set. */
  function Record(percent: real, c: Rgb): ColorInfo
  {
    ColorInfo(percent, c, None, None)
  }

  /** How many pairs `zip(hist, centroids)` yields. */
  function Paired(hist: seq<real>, centroids: seq<Rgb>): (n: nat)
    ensures n <= |hist| && n <= |centroids|
    ensures n == |hist| || n == |centroids|
  {
    if |hist| <= |centroids| then |hist| else |centroids|
  }

  /** The records produced from the first `n` zipped pairs. */
  function ExtractedUpTo(hist: seq<real>, centroids: seq<Rgb>, ignoreBackground: bool, n: nat): (out: seq<ColorInfo>)
    requires n <= Paired(hist, centroids)
    ensures |out| <= n
    ensures !ignoreBackground ==> |out| == n
  {
    if n == 0 then []
    else
      ExtractedUpTo(hist, centroids, ignoreBackground, n - 1)
      + (if Keeps(ignoreBackground, centroids[n - 1]) then [Record(hist[n - 1], centroids[n - 1])] else [])
  }

  /** The list `extract_cluster_color_values` returns. */
  function Extracted(hist: seq<real>, centroids: seq<Rgb>, ignoreBackground: bool): seq<ColorInfo>
  {
    ExtractedUpTo(hist, centroids, ignoreBackground, Paired(hist, centroids))
  }

  /** The positions in the zipped input of the pairs that are kept, in order. */
  function KeptPositionsUpTo(centroids: seq<Rgb>, ignoreBackground: bool, n: nat): seq<nat>
    requires n <= |centroids|
  {
    if n == 0 then []
    else
      KeptPositionsUpTo(centroids, ignoreBackground, n - 1)
      + (if Keeps(ignoreBackground, centroids[n - 1]) then [n - 1] else [])
  }

  function KeptPositions(hist: seq<real>, centroids: seq<Rgb>, ignoreBackground: bool): seq<nat>
  {
    KeptPositionsUpTo(centroids, ignoreBackground, Paired(hist, centroids))
  }

  /** The extractor's loop: one pass over the zipped pairs, summing and copying each centroid's channels. */
  method ExtractClusterColorValues(hist: seq<real>, centroids: seq<Rgb>, ignoreBackground: bool)
    returns (colors: seq<ColorInfo>)
    ensures colors == Extracted(hist, centroids, ignoreBackground)
  {
    colors := [];
    for i := 0 to Paired(hist, centroids)
      invariant colors == ExtractedUpTo(hist, centroids, ignoreBackground, i)
    {
      var percent, color := hist[i], centroids[i];
      var ch := Channels(color);
      var rgb: seq<int> := [];
      var total := 0;
      for j := 0 to |ch|
        invariant rgb == ch[..j]
        invariant total == Sum(ch[..j])
      {
        assert ch[..j + 1][..j] == ch[..j];
        total := total + ch[j];
        rgb := rgb + [ch[j]];
      }
      assert ch[..|ch|] == ch;
      ChannelSum(color);
      var record := Record(percent, Rgb(rgb[0], rgb[1], rgb[2]));
      if ignoreBackground {
        if total > DarkLimit && total < LightLimit {
          colors := colors + [record];
        }
      } else {
        colors := colors + [record];
      }
    }
  }

  /**
   * The output is the subsequence of the zipped pairs picked out by
   * `KeptPositions`: positions strictly increase, each record copies the pair
   * at its position, and a pair's position is picked exactly when its
   * centroid is kept.
   */
  lemma {:induction false} ExtractedUpToSelects(hist: seq<real>, centroids: seq<Rgb>, ignoreBackground: bool, n: nat)
    requires n <= Paired(hist, centroids)
    ensures var out, pos := ExtractedUpTo(hist, centroids, ignoreBackground, n), KeptPositionsUpTo(centroids, ignoreBackground, n);
      |pos| == |out|
      && (forall j :: 0 <= j < |pos| ==> pos[j] < n && out[j] == Record(hist[pos[j]], centroids[pos[j]]))
      && (forall j, k :: 0 <= j < k < |pos| ==> pos[j] < pos[k])
      && (forall i :: 0 <= i < n ==> (i in pos <==> Keeps(ignoreBackground, centroids[i])))
  {
    if n > 0 {
      ExtractedUpToSelects(hist, centroids, ignoreBackground, n - 1);
    }
  }

  lemma ExtractedSelects(hist: seq<real>, centroids: seq<Rgb>, ignoreBackground: bool)
    ensures var out, pos := Extracted(hist, centroids, ignoreBackground), KeptPositions(hist, centroids, ignoreBackground);
      |pos| == |out| <= Paired(hist, centroids)
      && (forall j :: 0 <= j < |pos| ==> pos[j] < Paired(hist, centroids) && out[j] == Record(hist[pos[j]], centroids[pos[j]]))
      && (forall j, k :: 0 <= j < k < |pos| ==> pos[j] < pos[k])
      && (forall i :: 0 <= i < Paired(hist, centroids) ==> (i in pos <==> Keeps(ignoreBackground, centroids[i])))
  {
    ExtractedUpToSelects(hist, centroids, ignoreBackground, Paired(hist, centroids));
  }

  /** With filtering on, the pair at position `i` survives exactly when its centroid is in the foreground band. */
  lemma FilteredKeepsForeground(hist: seq<real>, centroids: seq<Rgb>, i: nat)
    requires i < Paired(hist, centroids)
    ensures Record(hist[i], centroids[i]) in Extracted(hist, centroids, true) <== IsForeground(centroids[i])
    ensures i in KeptPositions(hist, centroids, true) <==> DarkLimit < centroids[i].r + centroids[i].g + centroids[i].b < LightLimit
  {
    ExtractedSelects(hist, centroids, true);
    var out, pos := Extracted(hist, centroids, true), KeptPositions(hist, centroids, true);
    if IsForeground(centroids[i]) {
      var j :| 0 <= j < |pos| && pos[j] == i;
      assert out[j] == Record(hist[i], centroids[i]);
    }
  }

  /** With filtering off, every zipped pair yields one record, in place. */
  lemma {:induction false} UnfilteredKeepsEveryPair(hist: seq<real>, centroids: seq<Rgb>, n: nat)
    requires n <= Paired(hist, centroids)
    ensures var out := ExtractedUpTo(hist, centroids, false, n);
      |out| == n && forall i :: 0 <= i < n ==> out[i] == Record(hist[i], centroids[i])
  {
    if n > 0 {
      UnfilteredKeepsEveryPair(hist, centroids, n - 1);
    }
  }

  lemma UnfilteredIsZip(hist: seq<real>, centroids: seq<Rgb>)
    ensures var out := Extracted(hist, centroids, false);
      |out| == Paired(hist, centroids)
      && forall i :: 0 <= i < |out| ==> out[i].percent == hist[i] && out[i].rgb == centroids[i]
  {
    UnfilteredKeepsEveryPair(hist, centroids, Paired(hist, centroids));
  }

  /** Black (sum 0) and white (sum 765) are background, a sum of 400 is not; both band limits are excluded. */
  lemma BackgroundBand()
    ensures !IsForeground(Rgb(0, 0, 0)) && !IsForeground(Rgb(255, 255, 255))
    ensures IsForeground(Rgb(100, 150, 150))
    ensures !IsForeground(Rgb(5, 5, 5)) && IsForeground(Rgb(6, 5, 5))
    ensures !IsForeground(Rgb(250, 250, 250)) && IsForeground(Rgb(250, 250, 249))
  {
  }

  /** Three clusters, black, grey-green and white: only the middle one survives the filter. */
  lemma FilterDropsExtremes()
    ensures Extracted([0.5, 0.3, 0.2], [Rgb(0, 0, 0), Rgb(100, 150, 150), Rgb(255, 255, 255)], true)
      == [Record(0.3, Rgb(100, 150, 150))]
  {
  }
}
