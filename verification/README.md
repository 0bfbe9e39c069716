# Dominant-colour bookkeeping of `domcol.py`, in Dafny

`Assignments/A08/domcol.py` finds the dominant colours of a batch of images.
It clusters each image's pixels with k-means, weighs the clusters with a label
histogram, and drops near-black and near-white clusters. It then asks a web
service to name each remaining colour, widening the tolerance until the service
answers. Finally it gathers everything into one nested dictionary per image.

This project models the integer-level logic around the clustering call. It
has five modules, one per stage:

- `Colors` (`colors.dfy`) holds the shared values. A rounded centroid is
  `Rgb`. The per-colour dictionary is `ColorInfo`; its `named_data` and
  `brightness` keys are `Option` fields, because the naming pass adds them in
  place. A candidate name from the service is `NamedColor`. The service's
  decoded JSON object is `Reply`, which is `{}`, an object with a `result`
  list, or a non-empty object without one.
- `Histogram` (`histogram.dfy`) models `find_histogram` as integer counting
  over a `seq<nat>` of labels. The bins follow the rule `np.histogram` applies
  to the edges `0..u`. The normalisation step is exact division by the total.
- `Extract` (`extract.dfy`) models `extract_cluster_color_values` twice: as a
  method with the source's two `for` loops, and as the specification function
  `Extracted` that the method is proved against.
- `Dominant` (`dominant.dfy`) models the naming pass of
  `get_dominant_colors`. `Resolve` is the tolerance-widening `while` loop for
  one colour. The list of tolerances it asked with is a ghost out-parameter,
  kept only to state the schedule; the source keeps no such list. `NameColors` updates an `array<ColorInfo>` in place.
  `GetDominantColors` chains the extractor, with filtering on, into the naming
  pass.
- `Aggregate` (`aggregate.dfy`) models the `__main__` loops that fill
  `allColors`, as methods proved against the functions `ImageTable` and
  `BatchTable`.

The naming service is a parameter `oracle: (Rgb, nat) -> Reply`, where
`oracle(c, d)` is the reply for colour `c` at tolerance `d`. The brightness
formula is a parameter `brightness: Rgb -> real`. The per-image pipeline
that the batch loop calls is a parameter `analyse`.

Two behaviours of the code are modelled as written, not as one might expect:

- **Stop test.** The naming loop tests `len(c) < 1` on the decoded JSON object,
  not on its `result` list. So it stops at the first reply that has any member
  at all. A reply `{"result": []}` therefore ends the search with no names
  (`Dominant.EmptyListingEndsSearch`). The comment at line 154 speaks of
  waiting for a named colour match instead.
- **Histogram bins.** The bins come from the number of distinct labels, not
  from the cluster count. The last bin is closed. When the labels are not
  exactly `0..u-1`, this puts counts in the wrong bin or loses them
  (`Histogram.OffGridLabels`).

## Model

| member | source | states |
|---|---|---|
| `Extract.ExtractClusterColorValues` | Assignments/A08/domcol.py:69-84 | The loop over `zip(hist, centroids)`, with its inner channel loop, returns exactly `Extracted(hist, centroids, ignoreBackground)`. |
| `Extract.ChannelSum` | Assignments/A08/domcol.py:73-77 | The `total` the inner loop accumulates over a centroid's channels is `r + g + b`, so the filter tests the channel sum. |
| `Extract.ExtractedUpTo` | Assignments/A08/domcol.py:71-82 | After n pairs the extractor has at most n records, and exactly n when filtering is off. |
| `Extract.ExtractedUpToSelects` | Assignments/A08/domcol.py:71-82 | After the first n pairs, the output is the subsequence of those pairs at strictly increasing kept positions. Each record copies the percent and rgb of the pair at its position. Position i is kept if and only if its centroid passes the filter. |
| `Extract.ExtractedSelects` | Assignments/A08/domcol.py:69-84 | The same for the whole input: the output is an order-preserving subsequence of `zip(hist, centroids)`, no longer than it, and contains exactly the kept pairs. |
| `Extract.FilteredKeepsForeground` | Assignments/A08/domcol.py:78-80 | With `ignore_background` set, pair i is kept if and only if 15 < r+g+b < 750, and a foreground pair's record is in the output. |
| `Extract.UnfilteredKeepsEveryPair` | Assignments/A08/domcol.py:81-82 | With filtering off, the first n pairs give n records, record i copying pair i. |
| `Extract.UnfilteredIsZip` | Assignments/A08/domcol.py:71-82 | With filtering off, the output has `min(len(hist), len(centroids))` records, each with the `percent` and `rgb` of the pair at the same position. |
| `Extract.BackgroundBand` | Assignments/A08/domcol.py:79 | Black (sum 0) and white (sum 765) are background and a sum of 400 is foreground. The sums 15 and 750 are excluded, while 16 and 749 are kept. |
| `Extract.FilterDropsExtremes` | Assignments/A08/domcol.py:78-80 | With filtering on, black, grey-green and white clusters give only the grey-green record, with its own percent. |
| `Histogram.FindHistogram` | Assignments/A08/domcol.py:35-36 | There is one bin per distinct label. |
| `Histogram.BinCountOccurrences` | Assignments/A08/domcol.py:36 | A bin `[lo, lo+1)` counts the labels equal to `lo`. The closed last bin also counts the labels equal to `lo+1`. |
| `Histogram.HistogramBins` | Assignments/A08/domcol.py:35-36 | For any labels, bin i < u-1 holds the number of occurrences of label i. Bin u-1 holds those of labels u-1 and u. |
| `Histogram.OccurrencesTotal` | Assignments/A08/domcol.py:36-39 | When every label is below u, the occurrence counts of `0..u-1` add up to the number of labels. |
| `Histogram.HistogramOfExactLabels` | Assignments/A08/domcol.py:35-39 | When the labels are exactly `{0..u-1}`, there are u bins. Bin i holds the number of occurrences of label i, and the bins sum to the number of labels. |
| `Histogram.Normalised` | Assignments/A08/domcol.py:38-39 | The fractions are the counts divided by their total: one per bin, and each times the total gives back its count. There are none when the total is zero: for a non-empty vector numpy divides by zero there, and the empty vector, which numpy maps to an empty array, is `None` too. |
| `Histogram.FractionsSumToOne` | Assignments/A08/domcol.py:38-39 | The fractions of a count vector with a non-zero total add up to exactly 1. |
| `Histogram.ExactLabelsNormalise` | Assignments/A08/domcol.py:35-41 | For non-empty labels that are exactly `{0..u-1}`, `find_histogram` returns fractions that sum to 1. |
| `Histogram.OffGridLabels` | Assignments/A08/domcol.py:35-39 | With a label of `0..u-1` missing, labels can land in the wrong bin (`[1, 2]` gives `[0, 2]`) or in none (`[0, 3]` gives `[1, 0]`). `[5]` gives an all-zero histogram, so the division is by zero. |
| `Dominant.QuerySchedule` | Assignments/A08/domcol.py:148-158 | The queries the loop makes start at tolerance 3, and each asks with a tolerance 3 above the one before. Every query but the last got `{}`, and the last got a non-empty reply. |
| `Dominant.Resolve` | Assignments/A08/domcol.py:152-158 | The loop asks with tolerances 3, 6, 9, ... in order. It stops at the first non-empty reply and returns that reply, so it never exits with an empty one. Callers must show that some tolerance in the schedule gets an answer. |
| `Dominant.NameColors` | Assignments/A08/domcol.py:151-160 | The array keeps its length. Each record keeps its `percent` and `rgb` and gains `named_data`, the first non-empty reply in the tolerance schedule, and `brightness` of its rgb. |
| `Dominant.GetDominantColors` | Assignments/A08/domcol.py:139-162 | Filtering is on. The returned array has one record per extracted colour, in order, each named as `NameColors` states. |
| `Dominant.ResolvedDetermined` | Assignments/A08/domcol.py:152-159 | Two runs of the loop against the same stateless service make the same queries and keep the same reply. |
| `Dominant.NamingDetermined` | Assignments/A08/domcol.py:151-160 | The record the naming pass leaves for a colour is determined by the colour, the service (taken as stateless) and the brightness formula. |
| `Dominant.AnsweredAtNine` | Assignments/A08/domcol.py:153-158 | Against a service that answers `{}` below tolerance 9, the queries are exactly 3, 6, 9, and the reply at 9 is kept. |
| `Dominant.EmptyListingEndsSearch` | Assignments/A08/domcol.py:155-159 | If the first reply is `{"result": []}`, the loop stops after that single query and stores it. |
| `Aggregate.AggregateImage` | Assignments/A08/domcol.py:184-212 | The nested loops return exactly `ImageTable(colors)`. That table holds keys `0..n-1`, key x holding colour x's `{Percent, RGB, Brightness, Colors}`. It is `None` (a `KeyError`) when some colour lacks `brightness`, `named_data` or a `result` list. |
| `Aggregate.AggregateBatch` | Assignments/A08/domcol.py:169-212 | The loop over files returns exactly `BatchTable(files, analyse)`: one image table per file, or `None` when any image raises `KeyError`. |
| `Aggregate.NameTableKeys` | Assignments/A08/domcol.py:199-209 | A colour's `Colors` map has exactly one key per distinct name in its `result` list. |
| `Aggregate.NameTableLastWins` | Assignments/A08/domcol.py:199-209 | Under each name sits the R/G/B/Distance of the last candidate with that name. |
| `Aggregate.SameNameCollapses` | Assignments/A08/domcol.py:204-209 | Two candidates with the same name collapse into one entry that holds the later one's values. |
| `Aggregate.SummaryOfListing` | Assignments/A08/domcol.py:194-209 | A named colour whose reply carries a `result` list gets an entry. The entry keeps its percent, rgb and brightness, and its `Colors` keys are the names in the list. |

## Left out

- Image loading and colour conversion (`cv2.imread`, `cvtColor`), the pixel reshape and the undefined `usage` call at lines 126-133 are left out. They are library I/O.
- The k-means fit (lines 135-136) is left out, because it is a randomised, floating-point library call. Its `labels_` are the input of `Histogram.FindHistogram`, and its centroids, already rounded, are the input of the extractor.
- `brightness` (lines 13-25) is a parameter, not a model. It takes a square root of a floating-point sum, so its range [0, 1] is not stated.
- The rounding in `round(float(percent), 2)` and `round(float(c))` (lines 75, 80, 82) is left out, because it is float rounding. The extractor takes percents and centroids that are already rounded. It copies each percent unchanged.
- `GetDominantColors` takes `hist` as given, so the step from `find_histogram`'s fractions to rounded percents is not modelled.
- `Histogram.Normalised` uses exact rationals in place of float64 division. A zero total over a non-empty vector, which numpy turns into NaNs with a warning, is `None`. The empty vector, for which numpy returns an empty array without a warning, is also `None`; k-means never produces it.
- `get_color_data` (lines 44-55) is the parameter `oracle`, because it is an HTTP request. Network errors and timeouts are not modelled. Because `oracle` is a pure function, the service is assumed stateless: the same colour and tolerance always get the same reply. `Dominant.ResolvedDetermined` and `Dominant.NamingDetermined` hold under that assumption.
- `Dominant.Resolve` requires some tolerance in the schedule to get a non-empty reply. The source loop has no bound and runs forever against a service that never answers. The model does not describe that divergence, and it adds no retry cap that the source lacks.
- `plot_colors`, `cv2.imwrite` (lines 86-105, 141-143), the `glob` traversal (line 168) and the JSON write (lines 213-215) are left out. They are drawing and file I/O. The stringified JSON keys are not modelled, and neither is the fact that a `KeyError` writes no file.
- The outer `for k,v in info.items()` loop (line 192) repeats the same assignments once per key of the record. The inner `for named,nameinfo in result.items()` loop (line 201) does the same once per key of the candidate. Every repeat writes the same values, so the model performs each write once.
- Lines 204-209 create an empty dictionary for a new name and then set R, G, B and Distance one at a time. The model stores all four at once, which gives the same result.
