/**
 * `latLngToSvg()`: the linear map from the geographic box onto the
 * `width` x `height` canvas, longitude growing to the right and latitude
 * growing upwards (SVG's y axis points down). PHP 8's `/` throws a
 * DivisionByZeroError when the box spans no longitude or no latitude; when
 * the bounds still hold their infinite seeds every coordinate is NAN.
 *
 * Floating-point rounding is not modelled: coordinates are exact reals, and
 * the decimal rendering of a float is a parameter (`Formatter`).
 */
module Projection {
  import opened Wrappers
  import opened Errors
  import opened GeoJson
  import opened GeoBounds
  import opened PhpStrings
  import opened Html

  /** A computed coordinate: a number, or NAN (`-INF / -INF`) when the bounds are still the seeds. */
  datatype Coord = Num(value: real) | NaN

  /** The `[x, y]` pair `latLngToSvg()` returns. */
  datatype Point = Point(x: Coord, y: Coord)

  /** What the projection reads from the generator: `geoBounds`, `width` and `height`. */
  datatype Canvas = Canvas(bounds: Option<Bounds>, width: int, height: int)

  /** The box spans no longitude or no latitude, so one of the two divisors is zero. */
  predicate Degenerate(c: Canvas)
  {
    c.bounds.Some? && (c.bounds.value.maxLng == c.bounds.value.minLng || c.bounds.value.maxLat == c.bounds.value.minLat)
  }

  /**
   * `latLngToSvg($lat, $lng)`. It fails exactly on a degenerate box, with
   * PHP's DivisionByZeroError; on the infinite seeds it yields NAN twice;
   * otherwise both coordinates are numbers.
   */
  function LatLngToSvg(c: Canvas, lat: real, lng: real): (r: Result<Point, Exception>)
    ensures r.Failure? <==> Degenerate(c)
    ensures r.Failure? ==> r.error == DivisionByZero
    ensures c.bounds.None? ==> r == Success(Point(NaN, NaN))
    ensures r.Success? && c.bounds.Some? ==> r.value.x.Num? && r.value.y.Num?
  {
    match c.bounds
    case None => Success(Point(NaN, NaN))
    case Some(b) =>
      if b.maxLng - b.minLng == 0.0 then Failure(DivisionByZero)
      else if b.maxLat - b.minLat == 0.0 then Failure(DivisionByZero)
      else
        Success(Point(Num((lng - b.minLng) / (b.maxLng - b.minLng) * c.width as real),
                      Num((b.maxLat - lat) / (b.maxLat - b.minLat) * c.height as real)))
  }

  /** The projection of a position, as the renderers call it (`latLngToSvg($lat, $lng)` with `[$lng, $lat]`). */
  function Project(c: Canvas, v: Position): Result<Point, Exception>
  {
    LatLngToSvg(c, v.lat, v.lng)
  }

  lemma DivSelf(d: real)
    requires d != 0.0
    ensures d / d == 1.0
  {
  }

  /** The south-west corner of the box lands on the bottom-left of the canvas, the north-east corner on the top-right. */
  lemma ProjectCorners(c: Canvas)
    requires c.bounds.Some? && !Degenerate(c)
    ensures var b := c.bounds.value;
      LatLngToSvg(c, b.minLat, b.minLng) == Success(Point(Num(0.0), Num(c.height as real))) &&
      LatLngToSvg(c, b.maxLat, b.maxLng) == Success(Point(Num(c.width as real), Num(0.0)))
  {
    var b := c.bounds.value;
    var w, h := c.width as real, c.height as real;
    DivSelf(b.maxLng - b.minLng);
    DivSelf(b.maxLat - b.minLat);
    var sw := LatLngToSvg(c, b.minLat, b.minLng).value;
    assert sw.x == Num((b.minLng - b.minLng) / (b.maxLng - b.minLng) * w);
    assert sw.y == Num((b.maxLat - b.minLat) / (b.maxLat - b.minLat) * h);
    var ne := LatLngToSvg(c, b.maxLat, b.maxLng).value;
    assert ne.x == Num((b.maxLng - b.minLng) / (b.maxLng - b.minLng) * w);
    assert ne.y == Num((b.maxLat - b.maxLat) / (b.maxLat - b.minLat) * h);
    assert sw == Point(Num(0.0), Num(h));
    assert ne == Point(Num(w), Num(0.0));
  }

  /** `0 <= a <= d` and `d > 0` put `a / d * size` between 0 and `size`. */
  lemma ScaleWithin(a: real, d: real, size: real)
    requires 0.0 <= a <= d && d > 0.0 && size >= 0.0
    ensures 0.0 <= a / d * size <= size
  {
    assert a / d <= 1.0 by {
      assert a / d * d == a;
    }
    assert a / d >= 0.0;
  }

  /** Scaling by `size / d` with `d, size > 0` keeps the order of the scaled values, in both directions. */
  lemma ScaleOrder(a1: real, a2: real, d: real, size: real)
    requires d > 0.0 && size > 0.0
    ensures a1 / d * size <= a2 / d * size <==> a1 <= a2
  {
    assert a1 / d * d == a1 && a2 / d * d == a2;
    if a1 <= a2 {
      assert a1 / d <= a2 / d;
    } else {
      assert a2 / d < a1 / d;
    }
  }

  /** A position inside a non-inverted box lands inside the canvas. */
  lemma ProjectWithinCanvas(c: Canvas, lat: real, lng: real)
    requires c.bounds.Some? && !Degenerate(c) && c.width >= 0 && c.height >= 0
    requires c.bounds.value.minLat <= lat <= c.bounds.value.maxLat
    requires c.bounds.value.minLng <= lng <= c.bounds.value.maxLng
    ensures LatLngToSvg(c, lat, lng).Success?
    ensures var p := LatLngToSvg(c, lat, lng).value;
      0.0 <= p.x.value <= c.width as real && 0.0 <= p.y.value <= c.height as real
  {
    var b := c.bounds.value;
    var p := LatLngToSvg(c, lat, lng).value;
    assert p.x == Num((lng - b.minLng) / (b.maxLng - b.minLng) * c.width as real);
    assert p.y == Num((b.maxLat - lat) / (b.maxLat - b.minLat) * c.height as real);
    ScaleWithin(lng - b.minLng, b.maxLng - b.minLng, c.width as real);
    ScaleWithin(b.maxLat - lat, b.maxLat - b.minLat, c.height as real);
  }

  /**
   * On a canvas of positive size over a non-inverted box, x orders points as
   * longitude does and y orders them opposite to latitude.
   */
  lemma ProjectOrder(c: Canvas, lat1: real, lng1: real, lat2: real, lng2: real)
    requires c.bounds.Some? && c.bounds.value.minLng < c.bounds.value.maxLng && c.bounds.value.minLat < c.bounds.value.maxLat
    requires c.width > 0 && c.height > 0
    ensures LatLngToSvg(c, lat1, lng1).Success? && LatLngToSvg(c, lat2, lng2).Success?
    ensures var p, q := LatLngToSvg(c, lat1, lng1).value, LatLngToSvg(c, lat2, lng2).value;
      (p.x.value <= q.x.value <==> lng1 <= lng2) && (p.y.value <= q.y.value <==> lat2 <= lat1)
  {
    var b := c.bounds.value;
    ScaleOrder(lng1 - b.minLng, lng2 - b.minLng, b.maxLng - b.minLng, c.width as real);
    ScaleOrder(b.maxLat - lat1, b.maxLat - lat2, b.maxLat - b.minLat, c.height as real);
  }

  /** The inverse map, from canvas coordinates back to `[lng, lat]`; it exists when the canvas has an area. */
  ghost function SvgToLatLng(c: Canvas, x: real, y: real): Position
    requires c.bounds.Some? && c.width != 0 && c.height != 0
  {
    var b := c.bounds.value;
    Position(b.minLng + x / c.width as real * (b.maxLng - b.minLng),
             b.maxLat - y / c.height as real * (b.maxLat - b.minLat))
  }

  lemma ScaleBack(a: real, d: real, size: real)
    requires d != 0.0 && size != 0.0
    ensures a / d * size / size * d == a
  {
    assert a / d * size / size == a / d;
    assert a / d * d == a;
  }

  lemma ScaleForth(x: real, d: real, size: real)
    requires d != 0.0 && size != 0.0
    ensures x / size * d / d * size == x
  {
    assert x / size * d / d == x / size;
    assert x / size * size == x;
  }

  /** On a non-degenerate box and a canvas with an area, mapping a projected position back gives the position. */
  lemma ProjectThenInvert(c: Canvas, lat: real, lng: real)
    requires c.bounds.Some? && !Degenerate(c) && c.width != 0 && c.height != 0
    ensures var p := LatLngToSvg(c, lat, lng).value;
      SvgToLatLng(c, p.x.value, p.y.value) == Position(lng, lat)
  {
    var b := c.bounds.value;
    var w, h := c.width as real, c.height as real;
    var p := LatLngToSvg(c, lat, lng).value;
    ScaleBack(lng - b.minLng, b.maxLng - b.minLng, w);
    ScaleBack(b.maxLat - lat, b.maxLat - b.minLat, h);
    assert p.x.value / w * (b.maxLng - b.minLng) == lng - b.minLng;
    assert p.y.value / h * (b.maxLat - b.minLat) == b.maxLat - lat;
  }

  /** And projecting a point mapped back gives the point: the projection is a bijection of the plane. */
  lemma InvertThenProject(c: Canvas, x: real, y: real)
    requires c.bounds.Some? && !Degenerate(c) && c.width != 0 && c.height != 0
    ensures var v := SvgToLatLng(c, x, y);
      LatLngToSvg(c, v.lat, v.lng) == Success(Point(Num(x), Num(y)))
  {
    var b := c.bounds.value;
    var w, h := c.width as real, c.height as real;
    var v := SvgToLatLng(c, x, y);
    ScaleForth(x, b.maxLng - b.minLng, w);
    ScaleForth(y, b.maxLat - b.minLat, h);
    assert v.lng - b.minLng == x / w * (b.maxLng - b.minLng);
    assert b.maxLat - v.lat == y / h * (b.maxLat - b.minLat);
    var p := LatLngToSvg(c, v.lat, v.lng).value;
    assert p.x == Num((v.lng - b.minLng) / (b.maxLng - b.minLng) * w);
    assert p.y == Num((b.maxLat - v.lat) / (b.maxLat - b.minLat) * h);
    assert p.x == Num(x / w * (b.maxLng - b.minLng) / (b.maxLng - b.minLng) * w);
    assert p.y == Num(y / h * (b.maxLat - b.minLat) / (b.maxLat - b.minLat) * h);
    assert p == Point(Num(x), Num(y));
  }

  /**
   * With the bounds computed from the document, every outer-ring vertex
   * lands inside the canvas (the map fills the canvas exactly).
   */
  lemma OuterVerticesWithinCanvas(features: seq<Feature>, c: Canvas, v: Position)
    requires IsTightBounds(OuterVertices(features), c.bounds) && !Degenerate(c)
    requires c.width >= 0 && c.height >= 0
    requires v in OuterVertices(features)
    ensures Project(c, v).Success?
    ensures 0.0 <= Project(c, v).value.x.value <= c.width as real
    ensures 0.0 <= Project(c, v).value.y.value <= c.height as real
  {
    TightBoundsOrdered(OuterVertices(features), c.bounds.value);
    ProjectWithinCanvas(c, v.lat, v.lng);
  }

  /** Renders a finite float as PHP's string conversion does (a parameter of the model). */
  type Formatter = real -> string

  /** The characters PHP's rendering of a float can hold: digits, sign, point, exponent, `INF` and `NAN`. */
  predicate IsNumeralChar(ch: char)
  {
    IsDigit(ch) || ch == '-' || ch == '+' || ch == '.' || ch == 'E' || ch == 'I' || ch == 'N' || ch == 'F' || ch == 'A'
  }

  predicate IsNumeral(s: string)
  {
    s != [] && forall i :: 0 <= i < |s| ==> IsNumeralChar(s[i])
  }

  /** The formatter produces a numeral for every value, as PHP's float-to-string conversion does. */
  ghost predicate NumeralFormatter(fmt: Formatter)
  {
    forall r :: IsNumeral(fmt(r))
  }

  /** A coordinate interpolated into a string (`"$x"`): the formatted number, or PHP's "NAN". */
  function CoordString(fmt: Formatter, c: Coord): (s: string)
    ensures NumeralFormatter(fmt) ==> IsNumeral(s)
  {
    if c.NaN? then "NAN" else fmt(c.value)
  }

  /** A numeral holds no space, no comma and no markup character. */
  lemma NumeralIsPlain(s: string)
    requires IsNumeral(s)
    ensures ' ' !in s && ',' !in s && NoMarkup(s) && !IsTrimChar(s[0]) && !IsTrimChar(s[|s| - 1])
  {
    assert IsNumeralChar(s[0]) && IsNumeralChar(s[|s| - 1]);
  }
}
