/** Reading GraphicData: a flat list of alternating x and y values becomes a list of
    points, a trailing odd value being dropped. Both annotation converters pair
    values this way. */
module Coordinates {
  import opened Options
  import opened Dicom
  import Numbers

  datatype Point = Point(x: real, y: real)

  /** `float(c)` for one component; `None` where Python raises. */
  function ToFloat(c: Component): Option<real> {
    match c
    case Num(r) => Some(r)
    case Str(s) => Numbers.ParseReal(s)
  }

  /** `float(c)`, or 0.0 where that raises. */
  function FloatOrZero(c: Component): real {
    ToFloat(c).GetOr(0.0)
  }

  /** The loop `for i in range(0, len(xs), 2): if i + 1 < len(xs): append([xs[i], xs[i + 1]])`. */
  function Pairs(xs: seq<real>): (ps: seq<Point>)
    ensures |ps| == |xs| / 2
    ensures forall k :: 0 <= k < |ps| ==> ps[k] == Point(xs[2 * k], xs[2 * k + 1])
  {
    if |xs| < 2 then [] else [Point(xs[0], xs[1])] + Pairs(xs[2..])
  }

  /** The inverse direction: points written out as alternating x and y values. */
  function Flatten(ps: seq<Point>): (xs: seq<real>)
    ensures |xs| == 2 * |ps|
  {
    if ps == [] then [] else [ps[0].x, ps[0].y] + Flatten(ps[1..])
  }

  /** Pairing loses no point: flattening points and pairing the values again gives
      the points back. */
  lemma {:induction false} PairsFlatten(ps: seq<Point>)
    ensures Pairs(Flatten(ps)) == ps
  {
    if ps != [] {
      PairsFlatten(ps[1..]);
      assert Flatten(ps)[2..] == Flatten(ps[1..]);
    }
  }

  /** Pairing loses only the trailing odd value. */
  lemma {:induction false} FlattenPairs(xs: seq<real>)
    ensures Flatten(Pairs(xs)) == xs[..2 * (|xs| / 2)]
  {
    if |xs| >= 2 {
      FlattenPairs(xs[2..]);
      assert Pairs(xs)[1..] == Pairs(xs[2..]);
      assert xs[..2 * (|xs| / 2)] == [xs[0], xs[1]] + xs[2..][..2 * (|xs[2..]| / 2)];
    }
  }

  /** Each component read with `float`, 0.0 for those it refuses. */
  function FloatsOrZero(cs: seq<Component>): (xs: seq<real>)
    ensures |xs| == |cs|
    ensures forall k :: 0 <= k < |cs| ==> xs[k] == FloatOrZero(cs[k])
  {
    seq(|cs|, k requires 0 <= k < |cs| => FloatOrZero(cs[k]))
  }

  /** The pieces of a backslash-separated string as text components. */
  function StrParts(parts: seq<string>): (cs: seq<Component>)
    ensures |cs| == |parts|
    ensures forall k :: 0 <= k < |parts| ==> cs[k] == Str(parts[k])
  {
    seq(|parts|, k requires 0 <= k < |parts| => Str(parts[k]))
  }
}
