/**
 * The batch loop of `domcol.py`: for every image, number its named colours
 * `0..n-1` in list order and file each one as `{Percent, RGB, Brightness,
 * Colors}`, where `Colors` maps every candidate name of the colour's reply to
 * that candidate's `{R, G, B, Distance}`, a later candidate overwriting an
 * earlier one of the same name.
 *
 * A record that lacks `brightness` or `named_data`, or whose reply has no
 * `result` member, makes the source raise `KeyError`, which ends the run
 * before anything is written; the model answers `None` for it.
 */
module Aggregate {
  import opened Colors

  /** `{R, G, B, Distance}`, stored under a colour name. */
  datatype Swatch = Swatch(r: int, g: int, b: int, distance: real)

  /** `{Percent, RGB, Brightness, Colors}`, stored under a colour's index. */
  datatype Summary = Summary(percent: real, rgb: Rgb, brightness: real, colors: map<string, Swatch>)

  function SwatchOf(candidate: NamedColor): Swatch
  {
    Swatch(candidate.r, candidate.g, candidate.b, candidate.dist)
  }

  /** The `Colors` map after the candidates of `result` are written in order. */
  function NameTable(result: seq<NamedColor>): map<string, Swatch>
  {
    if result == [] then map[]
    else NameTable(result[..|result| - 1])[result[|result| - 1].name := SwatchOf(result[|result| - 1])]
  }

  /** One colour's entry, or `None` where the source raises `KeyError`. */
  function Summarise(info: ColorInfo): Option<Summary>
  {
    match (info.brightness, info.named)
    case (Some(level), Some(Listing(result))) => Some(Summary(info.percent, info.rgb, level, NameTable(result)))
    case _ => None
  }

  /** The entry `allColors[img]` for an image whose named colours are `colors`. */
  function ImageTable(colors: seq<ColorInfo>): Option<map<nat, Summary>>
  {
    if forall i :: 0 <= i < |colors| ==> Summarise(colors[i]).Some?
    then Some(map x: nat | x < |colors| :: Summarise(colors[x]).value)
    else None
  }

  /** The whole of `allColors` once every file has been processed. */
  function BatchTable(files: seq<string>, analyse: string -> seq<ColorInfo>): Option<map<string, map<nat, Summary>>>
  {
    if forall f :: f in files ==> ImageTable(analyse(f)).Some?
    then Some(map f | f in files :: ImageTable(analyse(f)).value)
    else None
  }

  /** The nested loops that fill `allColors[img]` for one image. */
  method AggregateImage(colors: seq<ColorInfo>) returns (table: Option<map<nat, Summary>>)
    ensures table == ImageTable(colors)
  {
    var image: map<nat, Summary> := map[];
    for x := 0 to |colors|
      invariant forall i :: 0 <= i < x ==> Summarise(colors[i]).Some?
      invariant image == map y: nat | y < x :: Summarise(colors[y]).value
    {
      var info := colors[x];
      if info.brightness.None? || info.named.None? || !info.named.value.Listing? {
        return None;
      }
      var result := info.named.value.result;
      var names: map<string, Swatch> := map[];
      for k := 0 to |result|
        invariant names == NameTable(result[..k])
      {
        assert result[..k + 1][..k] == result[..k];
        var candidate := result[k];
        names := names[candidate.name := Swatch(candidate.r, candidate.g, candidate.b, candidate.dist)];
      }
      assert result[..|result|] == result;
      image := image[x := Summary(info.percent, info.rgb, info.brightness.value, names)];
    }
    table := Some(image);
  }

  /** The `for file in files` loop that fills `allColors`; `analyse` stands for `get_dominant_colors`. */
  method AggregateBatch(files: seq<string>, analyse: string -> seq<ColorInfo>)
    returns (all: Option<map<string, map<nat, Summary>>>)
    ensures all == BatchTable(files, analyse)
  {
    var acc: map<string, map<nat, Summary>> := map[];
    for i := 0 to |files|
      invariant forall f :: f in files[..i] ==> ImageTable(analyse(f)).Some?
      invariant acc == map f | f in files[..i] :: ImageTable(analyse(f)).value
    {
      assert files[..i + 1] == files[..i] + [files[i]];
      var table := AggregateImage(analyse(files[i]));
      if table.None? {
        return None;
      }
      acc := acc[files[i] := table.value];
    }
    assert files[..|files|] == files;
    all := Some(acc);
  }

  /** `Colors` has exactly one key per distinct candidate name. */
  lemma {:induction false} NameTableKeys(result: seq<NamedColor>)
    ensures NameTable(result).Keys == set candidate | candidate in result :: candidate.name
  {
    if result != [] {
      var init, last := result[..|result| - 1], result[|result| - 1];
      assert result == init + [last];
      NameTableKeys(init);
    }
  }

  /** Under each name sits the last candidate with that name. */
  lemma {:induction false} NameTableLastWins(result: seq<NamedColor>, j: nat)
    requires j < |result|
    requires forall k :: j < k < |result| ==> result[k].name != result[j].name
    ensures result[j].name in NameTable(result)
    ensures NameTable(result)[result[j].name] == SwatchOf(result[j])
  {
    if j < |result| - 1 {
      NameTableLastWins(result[..|result| - 1], j);
    }
  }

  /** Two candidates of the same name collapse into one entry holding the later one. */
  lemma SameNameCollapses(first: NamedColor, second: NamedColor)
    requires first.name == second.name
    ensures NameTable([first, second]) == map[second.name := SwatchOf(second)]
  {
    assert [first, second][..1] == [first];
    assert [first][..0] == [];
    assert NameTable([first]) == map[first.name := SwatchOf(first)];
  }

  /**
   * A named colour with an answered listing becomes an entry that keeps its
   * percent, rgb and brightness and whose `Colors` keys are the names in the
   * listing.
   */
  lemma SummaryOfListing(info: ColorInfo, level: real, result: seq<NamedColor>)
    requires info.brightness == Some(level) && info.named == Some(Listing(result))
    ensures Summarise(info).Some?
    ensures var s := Summarise(info).value;
      s.percent == info.percent && s.rgb == info.rgb && s.brightness == level
      && s.colors.Keys == set candidate | candidate in result :: candidate.name
  {
    NameTableKeys(result);
  }
}
