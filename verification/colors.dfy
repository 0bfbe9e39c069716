/** Values shared by the stages of the dominant-colour pipeline of `domcol.py`. */
module Colors {

  datatype Option<+T> = None | Some(value: T)

  /** A cluster centroid after each channel has been rounded to an integer. */
  datatype Rgb = Rgb(r: int, g: int, b: int)

  /** The channels in the order the extractor walks them. */
  function Channels(c: Rgb): seq<int>
  {
    [c.r, c.g, c.b]
  }

  /** Sum of a sequence of integers, accumulated from the left. */
  function Sum(s: seq<int>): int
  {
    if s == [] then 0 else Sum(s[..|s| - 1]) + s[|s| - 1]
  }

  /** One candidate the colour-naming service returns: `{name, r, g, b, dist}`. */
  datatype NamedColor = NamedColor(name: string, r: int, g: int, b: int, dist: real)

  /**
   * The decoded JSON object the naming service answers one query with.
   * `Blank` is the object with no members, `Listing` one that carries a
   * `result` list, `Unlisted` one with members but no `result` member.
   */
  datatype Reply =
    | Blank
    | Listing(result: seq<NamedColor>)
    | Unlisted

  /** `len(c) >= 1` on the decoded object: it has at least one member. */
  predicate Answered(reply: Reply)
  {
    !reply.Blank?
  }

  /**
   * The dictionary kept per colour. The extractor creates it with `percent`
   * and `rgb`; the naming pass adds `named_data` and `brightness` in place.
   */
  datatype ColorInfo = ColorInfo(
    percent: real,
    rgb: Rgb,
    named: Option<Reply>,
    brightness: Option<real>)
}
