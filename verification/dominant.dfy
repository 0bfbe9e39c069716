/**
 * The naming pass of `get_dominant_colors`: for every kept colour, query the
 * colour-naming service with tolerance 3, 6, 9, ... until the reply is a
 * non-empty object, then store that reply and the colour's brightness in the
 * colour's record.
 *
 * The service and the brightness formula are parameters: `oracle(c, d)` is
 * the decoded reply to the query for colour `c` at tolerance `d`, and
 * `brightness(c)` the perceived brightness of `c`.
 */
module Dominant {
  import opened Colors
  import opened Extract

  /** Tolerance of the first query. */
  const StartDelta := 3
  /** Amount the tolerance grows by after every query. */
  const DeltaStep := 3

  type Oracle = (Rgb, nat) -> Reply

  /** The tolerance of query number `k`, counting from 0. */
  function QueryTolerance(k: nat): nat
  {
    StartDelta + k * DeltaStep
  }

  /** Query number `k` is the first whose reply is a non-empty object. */
  predicate FirstAnswerAt(oracle: Oracle, c: Rgb, k: nat)
  {
    Answered(oracle(c, QueryTolerance(k)))
    && forall j: nat :: j < k ==> !Answered(oracle(c, QueryTolerance(j)))
  }

  /** Some tolerance of the schedule gets a non-empty reply, so the loop stops. */
  ghost predicate Answerable(oracle: Oracle, c: Rgb)
  {
    exists k: nat :: Answered(oracle(c, QueryTolerance(k)))
  }

  /**
   * `asked` lists the tolerances queried, in order, and `reply` is the reply
   * the loop leaves in `c`: the answer to the last query, which is the first
   * non-empty one.
   */
  predicate Resolved(oracle: Oracle, c: Rgb, reply: Reply, asked: seq<nat>)
  {
    |asked| > 0
    && (forall j :: 0 <= j < |asked| ==> asked[j] == QueryTolerance(j))
    && FirstAnswerAt(oracle, c, |asked| - 1)
    && reply == oracle(c, asked[|asked| - 1])
  }

  /** The `while len(c) < 1` loop for one colour. */
  method Resolve(oracle: Oracle, c: Rgb) returns (reply: Reply, ghost asked: seq<nat>)
    requires Answerable(oracle, c)
    ensures Resolved(oracle, c, reply, asked)
    ensures Answered(reply)
  {
    ghost var bound: nat :| Answered(oracle(c, QueryTolerance(bound)));
    var d: nat := StartDelta;
    reply := Blank;
    asked := [];
    while !Answered(reply)
      invariant d == QueryTolerance(|asked|)
      invariant forall j :: 0 <= j < |asked| ==> asked[j] == QueryTolerance(j)
      invariant forall j: nat :: j + 1 < |asked| ==> !Answered(oracle(c, QueryTolerance(j)))
      invariant asked == [] ==> reply == Blank
      invariant asked != [] ==> reply == oracle(c, asked[|asked| - 1])
      invariant |asked| <= bound + 1
      decreases bound + 1 - |asked|
    {
      reply := oracle(c, d);
      asked := asked + [d];
      d := d + DeltaStep;
    }
  }

  /** A colour's record after the naming pass, given the record before it. */
  ghost predicate NamedFrom(oracle: Oracle, brightness: Rgb -> real, before: ColorInfo, after: ColorInfo)
  {
    after.percent == before.percent
    && after.rgb == before.rgb
    && after.brightness == Some(brightness(before.rgb))
    && after.named.Some?
    && exists asked :: Resolved(oracle, before.rgb, after.named.value, asked)
  }

  /** The `for i in range(len(colors))` loop, which adds `named_data` and `brightness` to each record in place. */
  method NameColors(colors: array<ColorInfo>, oracle: Oracle, brightness: Rgb -> real)
    requires forall i :: 0 <= i < colors.Length ==> Answerable(oracle, colors[i].rgb)
    modifies colors
    ensures forall i :: 0 <= i < colors.Length ==> NamedFrom(oracle, brightness, old(colors[i]), colors[i])
  {
    for i := 0 to colors.Length
      invariant forall j :: 0 <= j < i ==> NamedFrom(oracle, brightness, old(colors[j]), colors[j])
      invariant forall j :: i <= j < colors.Length ==> colors[j] == old(colors[j])
    {
      var reply;
      ghost var asked;
      reply, asked := Resolve(oracle, colors[i].rgb);
      colors[i] := colors[i].(named := Some(reply));
      colors[i] := colors[i].(brightness := Some(brightness(colors[i].rgb)));
    }
  }

  /**
   * `get_dominant_colors` after clustering: the extractor with background
   * filtering on, then the naming pass over its list.
   */
  method GetDominantColors(hist: seq<real>, centroids: seq<Rgb>, oracle: Oracle, brightness: Rgb -> real)
    returns (colors: array<ColorInfo>)
    requires forall k :: 0 <= k < |Extracted(hist, centroids, true)| ==> Answerable(oracle, Extracted(hist, centroids, true)[k].rgb)
    ensures fresh(colors)
    ensures colors.Length == |Extracted(hist, centroids, true)|
    ensures forall i :: 0 <= i < colors.Length ==> NamedFrom(oracle, brightness, Extracted(hist, centroids, true)[i], colors[i])
  {
    var extracted := ExtractClusterColorValues(hist, centroids, true);
    colors := new ColorInfo[|extracted|](i requires 0 <= i < |extracted| => extracted[i]);
    NameColors(colors, oracle, brightness);
  }

  /**
   * The queries the loop makes start at tolerance 3 and each one asks with a
   * tolerance 3 above the one before; every query but the last got `{}`.
   */
  lemma QuerySchedule(oracle: Oracle, c: Rgb, reply: Reply, asked: seq<nat>)
    requires Resolved(oracle, c, reply, asked)
    ensures asked[0] == 3
    ensures forall j :: 0 <= j < |asked| - 1 ==> asked[j + 1] == asked[j] + 3
    ensures forall j :: 0 <= j < |asked| - 1 ==> oracle(c, asked[j]) == Blank
    ensures Answered(reply)
  {
    forall j | 0 <= j < |asked| - 1
      ensures oracle(c, asked[j]) == Blank
    {
      assert !Answered(oracle(c, QueryTolerance(j)));
    }
  }

  /** Only one query number can be the first answered one. */
  lemma FirstAnswerUnique(oracle: Oracle, c: Rgb, k: nat, m: nat)
    requires FirstAnswerAt(oracle, c, k) && FirstAnswerAt(oracle, c, m)
    ensures k == m
  {
  }

  /** The loop's outcome is determined by the service: the same queries, the same stored reply. */
  lemma ResolvedDetermined(oracle: Oracle, c: Rgb, reply1: Reply, asked1: seq<nat>, reply2: Reply, asked2: seq<nat>)
    requires Resolved(oracle, c, reply1, asked1) && Resolved(oracle, c, reply2, asked2)
    ensures asked1 == asked2 && reply1 == reply2
  {
  }

  /** Two records named from the same record by the same service are equal. */
  lemma NamingDetermined(oracle: Oracle, brightness: Rgb -> real, before: ColorInfo, after1: ColorInfo, after2: ColorInfo)
    requires NamedFrom(oracle, brightness, before, after1) && NamedFrom(oracle, brightness, before, after2)
    ensures after1 == after2
  {
  }

  /** A service that answers `{}` below tolerance 9 is asked at 3, 6 and 9, and the reply at 9 is kept. */
  lemma AnsweredAtNine(oracle: Oracle, c: Rgb, reply: Reply, asked: seq<nat>)
    requires forall d :: 0 <= d < 9 ==> oracle(c, d) == Blank
    requires Answered(oracle(c, 9))
    requires Resolved(oracle, c, reply, asked)
    ensures asked == [3, 6, 9] && reply == oracle(c, 9)
  {
    assert FirstAnswerAt(oracle, c, 2);
    FirstAnswerUnique(oracle, c, |asked| - 1, 2);
    assert asked == [QueryTolerance(0), QueryTolerance(1), QueryTolerance(2)];
  }

  /**
   * The stop test looks at the reply object, not at its `result` list: a
   * reply `{"result": []}` to the first query ends the search with no names.
   */
  lemma EmptyListingEndsSearch(oracle: Oracle, c: Rgb, reply: Reply, asked: seq<nat>)
    requires oracle(c, StartDelta) == Listing([])
    requires Resolved(oracle, c, reply, asked)
    ensures asked == [StartDelta] && reply == Listing([])
  {
    assert FirstAnswerAt(oracle, c, 0);
    FirstAnswerUnique(oracle, c, |asked| - 1, 0);
  }
}
