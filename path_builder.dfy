/**
 * `renderPolygon()`: the SVG path data of one ring-set. Every ring becomes
 * the token `M`, one token `x,y` per vertex and the token `Z`; the method
 * appends each token and a space, and trims the result. The projection of
 * a vertex may throw (a degenerate box), which ends the rendering.
 */
module PathBuilder {
  import opened Wrappers
  import opened Errors
  import opened GeoJson
  import opened Projection
  import opened PhpStrings
  import opened Html

  /** `"$x,$y"`: the two coordinates of a point as PHP interpolates them, joined by a comma. */
  function PointToken(fmt: Formatter, p: Point): (t: string)
    ensures ',' in t
  {
    var t := CoordString(fmt, p.x) + "," + CoordString(fmt, p.y);
    assert t[|CoordString(fmt, p.x)|] == ',';
    t
  }

  /** Nothing in `rings` needs projecting, or the projection does not divide by zero. */
  predicate Drawable(c: Canvas, rings: RingSet)
  {
    !Degenerate(c) || forall i :: 0 <= i < |rings| ==> rings[i] == []
  }

  /** The vertex tokens of a ring, in order. */
  function VertexTokens(fmt: Formatter, c: Canvas, ring: Ring): (ts: seq<string>)
    requires !Degenerate(c) || ring == []
    ensures |ts| == |ring|
    decreases |ring|
  {
    if ring == [] then []
    else VertexTokens(fmt, c, ring[..|ring| - 1]) + [PointToken(fmt, Project(c, Last(ring)).value)]
  }

  /** The tokens of one ring: `M`, its vertices, `Z`. */
  function RingTokens(fmt: Formatter, c: Canvas, ring: Ring): seq<string>
    requires !Degenerate(c) || ring == []
  {
    ["M"] + VertexTokens(fmt, c, ring) + ["Z"]
  }

  /** The tokens of a ring-set: the tokens of each ring, in order. */
  function PolygonTokens(fmt: Formatter, c: Canvas, rings: RingSet): seq<string>
    requires Drawable(c, rings)
    decreases |rings|
  {
    if rings == [] then []
    else PolygonTokens(fmt, c, rings[..|rings| - 1]) + RingTokens(fmt, c, Last(rings))
  }

  /** The path data of a ring-set: its tokens joined by single spaces. */
  function PolygonPath(fmt: Formatter, c: Canvas, rings: RingSet): string
    requires Drawable(c, rings)
  {
    Implode(" ", PolygonTokens(fmt, c, rings))
  }

  lemma DrawablePrefix(c: Canvas, rings: RingSet, i: nat)
    requires i <= |rings| && Drawable(c, rings)
    ensures Drawable(c, rings[..i])
  {
  }

  lemma {:induction false} PolygonTokensEnds(fmt: Formatter, c: Canvas, rings: RingSet)
    requires Drawable(c, rings) && rings != []
    ensures var ts := PolygonTokens(fmt, c, rings);
      ts != [] && ts[0] == "M" && Last(ts) == "Z"
    decreases |rings|
  {
    var prefix := rings[..|rings| - 1];
    if prefix != [] {
      PolygonTokensEnds(fmt, c, prefix);
    }
  }

  lemma SpacedSnoc(ts: seq<string>, t: string)
    ensures Spaced(ts + [t]) == Spaced(ts) + t + " "
  {
    assert (ts + [t])[..|ts|] == ts;
  }

  lemma VertexTokensStep(fmt: Formatter, c: Canvas, ring: Ring, k: nat)
    requires k < |ring| && !Degenerate(c)
    ensures VertexTokens(fmt, c, ring[..k + 1]) == VertexTokens(fmt, c, ring[..k]) + [PointToken(fmt, Project(c, ring[k]).value)]
  {
    assert ring[..k + 1][..k] == ring[..k];
  }

  lemma PolygonTokensStep(fmt: Formatter, c: Canvas, polygon: RingSet, i: nat)
    requires i < |polygon| && Drawable(c, polygon[..i]) && (!Degenerate(c) || polygon[i] == [])
    ensures Drawable(c, polygon[..i + 1])
    ensures PolygonTokens(fmt, c, polygon[..i + 1]) ==
      PolygonTokens(fmt, c, polygon[..i]) + ["M"] + VertexTokens(fmt, c, polygon[i]) + ["Z"]
  {
    assert forall j :: 0 <= j < i ==> polygon[..i + 1][j] == polygon[..i][j];
    assert polygon[..i + 1][..i] == polygon[..i];
  }

  /**
   * The inner loop of `renderPolygon($polygon)`: appends `M `, one `x,y `
   * per vertex and `Z ` to `path`. It throws exactly when a vertex has to
   * be projected onto a degenerate box.
   */
  method RenderRing(fmt: Formatter, c: Canvas, ring: Ring, path: string) returns (r: Result<string, Exception>)
    ensures r.Failure? <==> Degenerate(c) && ring != []
    ensures r.Failure? ==> r.error == DivisionByZero
    ensures r.Success? ==> r.value == path + "M " + Spaced(VertexTokens(fmt, c, ring)) + "Z "
  {
    var out := path + "M ";
    assert ring[..0] == [];
    for k := 0 to |ring|
      invariant !Degenerate(c) || k == 0
      invariant out == path + "M " + Spaced(VertexTokens(fmt, c, ring[..k]))
    {
      var p := LatLngToSvg(c, ring[k].lat, ring[k].lng);
      if p.Failure? {
        return Failure(p.error);
      }
      var token := PointToken(fmt, p.value);
      assert p == Project(c, ring[k]);
      RingTextStep(fmt, c, ring, k, path, out);
      out := out + token + " ";
    }
    assert ring[..|ring|] == ring;
    r := Success(out + "Z ");
  }

  lemma RingTextStep(fmt: Formatter, c: Canvas, ring: Ring, k: nat, path: string, out: string)
    requires k < |ring| && !Degenerate(c)
    requires out == path + "M " + Spaced(VertexTokens(fmt, c, ring[..k]))
    ensures out + PointToken(fmt, Project(c, ring[k]).value) + " " == path + "M " + Spaced(VertexTokens(fmt, c, ring[..k + 1]))
  {
    var head, vs, t := path + "M ", VertexTokens(fmt, c, ring[..k]), PointToken(fmt, Project(c, ring[k]).value);
    VertexTokensStep(fmt, c, ring, k);
    SpacedSnoc(vs, t);
    ConcatAssoc(head, Spaced(vs) + t, " ");
    ConcatAssoc(head, Spaced(vs), t);
  }

  /** The text of one more ring, as `RenderRing` appends it. */
  lemma SpacedRing(before: seq<string>, vs: seq<string>)
    ensures Spaced(before + ["M"] + vs + ["Z"]) == Spaced(before) + "M " + Spaced(vs) + "Z "
  {
    SpacedConcat(before + ["M"], vs);
    SpacedSnoc(before, "M");
    SpacedSnoc(before + ["M"] + vs, "Z");
  }

  /**
   * `renderPolygon($polygon)`. It throws exactly when a vertex has to be
   * projected onto a degenerate box; otherwise it returns the path data,
   * `M x,y x,y ... Z` per ring with single spaces and nothing around.
   */
  method RenderPolygon(fmt: Formatter, c: Canvas, polygon: RingSet) returns (r: Result<string, Exception>)
    ensures r.Failure? <==> !Drawable(c, polygon)
    ensures r.Failure? ==> r.error == DivisionByZero
    ensures r.Success? ==> r.value == PolygonPath(fmt, c, polygon)
  {
    var path := "";
    for i := 0 to |polygon|
      invariant Drawable(c, polygon[..i])
      invariant path == Spaced(PolygonTokens(fmt, c, polygon[..i]))
    {
      var ring := RenderRing(fmt, c, polygon[i], path);
      if ring.Failure? {
        return Failure(ring.error);
      }
      PolygonTokensStep(fmt, c, polygon, i);
      SpacedRing(PolygonTokens(fmt, c, polygon[..i]), VertexTokens(fmt, c, polygon[i]));
      path := ring.value;
    }
    assert polygon[..|polygon|] == polygon;
    if polygon != [] {
      PolygonTokensEnds(fmt, c, polygon);
    }
    TrimSpaced(PolygonTokens(fmt, c, polygon));
    r := Success(Trim(path));
  }

  /** Every token of a ring-set is `M`, `Z`, or a vertex token, which always holds a comma. */
  lemma {:induction false} VertexTokensHaveComma(fmt: Formatter, c: Canvas, ring: Ring)
    requires !Degenerate(c) || ring == []
    ensures forall t :: t in VertexTokens(fmt, c, ring) ==> ',' in t
    decreases |ring|
  {
    if ring != [] {
      VertexTokensHaveComma(fmt, c, ring[..|ring| - 1]);
    }
  }

  lemma {:induction false} VertexTokensArePlain(fmt: Formatter, c: Canvas, ring: Ring)
    requires NumeralFormatter(fmt)
    requires !Degenerate(c) || ring == []
    ensures forall t :: t in VertexTokens(fmt, c, ring) ==> ' ' !in t && NoMarkup(t)
    decreases |ring|
  {
    if ring != [] {
      VertexTokensArePlain(fmt, c, ring[..|ring| - 1]);
      var p := Project(c, Last(ring)).value;
      NumeralIsPlain(CoordString(fmt, p.x));
      NumeralIsPlain(CoordString(fmt, p.y));
    }
  }

  /** A vertex token splits at its comma into the two coordinates, x first. */
  lemma VertexTokenSplit(fmt: Formatter, p: Point)
    requires NumeralFormatter(fmt)
    ensures Explode(',', PointToken(fmt, p)) == [CoordString(fmt, p.x), CoordString(fmt, p.y)]
  {
    var xs, ys := CoordString(fmt, p.x), CoordString(fmt, p.y);
    NumeralIsPlain(xs);
    NumeralIsPlain(ys);
    assert Implode([','], [xs, ys]) == xs + "," + ys by {
      assert [xs, ys][1..] == [ys];
    }
    ExplodeImplode(',', [xs, ys]);
  }

  /** No token of a ring-set holds a space or a markup character. */
  lemma {:induction false} PolygonTokensArePlain(fmt: Formatter, c: Canvas, rings: RingSet)
    requires NumeralFormatter(fmt) && Drawable(c, rings)
    ensures forall t :: t in PolygonTokens(fmt, c, rings) ==> t != [] && ' ' !in t && NoMarkup(t)
    decreases |rings|
  {
    if rings != [] {
      PolygonTokensArePlain(fmt, c, rings[..|rings| - 1]);
      VertexTokensArePlain(fmt, c, Last(rings));
      VertexTokensHaveComma(fmt, c, Last(rings));
    }
  }

  /**
   * Splitting the path data of a non-empty ring-set at its spaces gives its
   * tokens back: the path is exactly `M`, the vertex tokens and `Z` per ring,
   * one space between neighbours.
   */
  lemma PolygonPathTokens(fmt: Formatter, c: Canvas, rings: RingSet)
    requires NumeralFormatter(fmt) && Drawable(c, rings) && rings != []
    ensures Explode(' ', PolygonPath(fmt, c, rings)) == PolygonTokens(fmt, c, rings)
  {
    var ts := PolygonTokens(fmt, c, rings);
    PolygonTokensArePlain(fmt, c, rings);
    PolygonTokensEnds(fmt, c, rings);
    assert forall i :: 0 <= i < |ts| ==> ' ' !in ts[i] by {
      forall i | 0 <= i < |ts| ensures ' ' !in ts[i] {
        assert ts[i] in ts;
      }
    }
    ExplodeImplode(' ', ts);
  }

  /** The total number of vertices of the rings. */
  function VertexCount(rings: RingSet): nat
    decreases |rings|
  {
    if rings == [] then 0 else VertexCount(rings[..|rings| - 1]) + |Last(rings)|
  }

  /**
   * The path data has one `M` and one `Z` per ring, and one vertex token per
   * vertex: each ring is drawn as one closed sub-path, holes included.
   */
  lemma {:induction false} PolygonTokensCount(fmt: Formatter, c: Canvas, rings: RingSet)
    requires Drawable(c, rings)
    ensures var ts := PolygonTokens(fmt, c, rings);
      multiset(ts)["M"] == |rings| && multiset(ts)["Z"] == |rings| && |ts| == 2 * |rings| + VertexCount(rings)
    decreases |rings|
  {
    if rings != [] {
      var prefix := rings[..|rings| - 1];
      PolygonTokensCount(fmt, c, prefix);
      RingTokensCount(fmt, c, Last(rings));
      assert PolygonTokens(fmt, c, rings) == PolygonTokens(fmt, c, prefix) + RingTokens(fmt, c, Last(rings));
    }
  }

  lemma RingTokensCount(fmt: Formatter, c: Canvas, ring: Ring)
    requires !Degenerate(c) || ring == []
    ensures var ts := RingTokens(fmt, c, ring);
      multiset(ts)["M"] == 1 && multiset(ts)["Z"] == 1 && |ts| == |ring| + 2
  {
    var vs := VertexTokens(fmt, c, ring);
    VertexTokensHaveComma(fmt, c, ring);
    assert "M" !in vs && "Z" !in vs by {
      assert ',' !in "M" && ',' !in "Z";
    }
    assert multiset(RingTokens(fmt, c, ring)) == multiset(["M"]) + multiset(vs) + multiset(["Z"]);
  }

  /** The ring-sets of a MultiPolygon, one after another, as one ring-set. */
  function Flatten(polygons: seq<RingSet>): RingSet
    decreases |polygons|
  {
    if polygons == [] then [] else Flatten(polygons[..|polygons| - 1]) + Last(polygons)
  }

  predicate AllDrawable(c: Canvas, polygons: seq<RingSet>)
  {
    forall j :: 0 <= j < |polygons| ==> Drawable(c, polygons[j])
  }

  /** `renderPolygon($poly)` for every ring-set of a MultiPolygon, in order. */
  function PolygonPaths(fmt: Formatter, c: Canvas, polygons: seq<RingSet>): (paths: seq<string>)
    requires AllDrawable(c, polygons)
    ensures |paths| == |polygons|
    decreases |polygons|
  {
    if polygons == [] then []
    else PolygonPaths(fmt, c, polygons[..|polygons| - 1]) + [PolygonPath(fmt, c, Last(polygons))]
  }

  lemma {:induction false} FlattenDrawable(c: Canvas, polygons: seq<RingSet>)
    requires AllDrawable(c, polygons)
    ensures Drawable(c, Flatten(polygons))
    decreases |polygons|
  {
    if polygons != [] {
      FlattenDrawable(c, polygons[..|polygons| - 1]);
    }
  }

  lemma {:induction false} PolygonTokensConcat(fmt: Formatter, c: Canvas, a: RingSet, b: RingSet)
    requires Drawable(c, a) && Drawable(c, b)
    ensures Drawable(c, a + b)
    ensures PolygonTokens(fmt, c, a + b) == PolygonTokens(fmt, c, a) + PolygonTokens(fmt, c, b)
    decreases |b|
  {
    if b == [] {
      assert a + b == a;
    } else {
      var b', r := b[..|b| - 1], Last(b);
      assert b == b' + [r];
      assert a + b == (a + b') + [r];
      DrawablePrefix(c, b, |b| - 1);
      DrawableConcat(c, a, b);
      PolygonTokensConcat(fmt, c, a, b');
      PolygonTokensSnoc(fmt, c, b', r);
      PolygonTokensSnoc(fmt, c, a + b', r);
      SeqAssoc(PolygonTokens(fmt, c, a), PolygonTokens(fmt, c, b'), RingTokens(fmt, c, r));
    }
  }

  lemma PolygonTokensSnoc(fmt: Formatter, c: Canvas, rings: RingSet, r: Ring)
    requires Drawable(c, rings + [r])
    ensures Drawable(c, rings) && (!Degenerate(c) || r == [])
    ensures PolygonTokens(fmt, c, rings + [r]) == PolygonTokens(fmt, c, rings) + RingTokens(fmt, c, r)
  {
    var rs := rings + [r];
    assert rs[..|rs| - 1] == rings;
    assert rs[|rs| - 1] == r;
    if Degenerate(c) {
      forall i | 0 <= i < |rings| ensures rings[i] == [] {
        assert rs[i] == rings[i];
      }
    }
  }

  lemma DrawableConcat(c: Canvas, a: RingSet, b: RingSet)
    requires Drawable(c, a) && Drawable(c, b)
    ensures Drawable(c, a + b)
  {
    if Degenerate(c) {
      forall i | 0 <= i < |a + b| ensures (a + b)[i] == [] {
        if i >= |a| {
          assert (a + b)[i] == b[i - |a|];
        }
      }
    }
  }

  lemma SeqAssoc<T>(x: seq<T>, y: seq<T>, z: seq<T>)
    ensures x + y + z == x + (y + z)
  {
  }

  lemma {:induction false} PolygonPathsJoin(fmt: Formatter, c: Canvas, polygons: seq<RingSet>)
    requires AllDrawable(c, polygons)
    requires forall j :: 0 <= j < |polygons| ==> polygons[j] != []
    ensures Drawable(c, Flatten(polygons))
    ensures Implode(" ", PolygonPaths(fmt, c, polygons)) == PolygonPath(fmt, c, Flatten(polygons))
    decreases |polygons|
  {
    FlattenDrawable(c, polygons);
    if |polygons| == 1 {
      assert polygons[..0] == [];
      assert Flatten(polygons) == polygons[0];
    } else if polygons != [] {
      var prefix := polygons[..|polygons| - 1];
      var last := Last(polygons);
      PolygonPathsJoin(fmt, c, prefix);
      FlattenDrawable(c, prefix);
      PolygonTokensConcat(fmt, c, Flatten(prefix), last);
      PolygonTokensEnds(fmt, c, last);
      assert prefix[0] != [];
      assert Flatten(prefix) != [] by {
        FlattenKeepsFirst(prefix);
      }
      PolygonTokensEnds(fmt, c, Flatten(prefix));
      ImplodeConcat(" ", PolygonPaths(fmt, c, prefix), [PolygonPath(fmt, c, last)]);
      ImplodeConcat(" ", PolygonTokens(fmt, c, Flatten(prefix)), PolygonTokens(fmt, c, last));
      assert Implode(" ", [PolygonPath(fmt, c, last)]) == PolygonPath(fmt, c, last);
    }
  }

  lemma {:induction false} FlattenKeepsFirst(polygons: seq<RingSet>)
    requires polygons != [] && polygons[0] != []
    ensures Flatten(polygons) != []
    decreases |polygons|
  {
    if |polygons| > 1 {
      FlattenKeepsFirst(polygons[..|polygons| - 1]);
    }
  }

  /**
   * A MultiPolygon whose ring-sets are all non-empty is drawn exactly as the
   * one Polygon holding all of their rings: the region's `d` attribute
   * (`trim()` of every path followed by a space) is that Polygon's path data.
   */
  lemma MultiPolygonAsOnePolygon(fmt: Formatter, c: Canvas, polygons: seq<RingSet>)
    requires AllDrawable(c, polygons)
    requires forall j :: 0 <= j < |polygons| ==> polygons[j] != []
    ensures Drawable(c, Flatten(polygons))
    ensures Trim(Spaced(PolygonPaths(fmt, c, polygons))) == PolygonPath(fmt, c, Flatten(polygons))
  {
    PolygonPathsJoin(fmt, c, polygons);
    var paths := PolygonPaths(fmt, c, polygons);
    if polygons != [] {
      PathEnds(fmt, c, polygons[0]);
      PathEnds(fmt, c, Last(polygons));
      PolygonPathsAt(fmt, c, polygons, 0);
      PolygonPathsAt(fmt, c, polygons, |polygons| - 1);
    }
    TrimSpaced(paths);
  }

  /** The path data of a non-empty ring-set starts with `M` and ends with `Z`. */
  lemma PathEnds(fmt: Formatter, c: Canvas, rings: RingSet)
    requires Drawable(c, rings) && rings != []
    ensures var p := PolygonPath(fmt, c, rings); p != [] && p[0] == 'M' && Last(p) == 'Z'
  {
    var ts := PolygonTokens(fmt, c, rings);
    PolygonTokensEnds(fmt, c, rings);
    ImplodeEnds(" ", ts);
  }

  lemma {:induction false} PolygonPathsAt(fmt: Formatter, c: Canvas, polygons: seq<RingSet>, j: nat)
    requires AllDrawable(c, polygons) && j < |polygons|
    ensures PolygonPaths(fmt, c, polygons)[j] == PolygonPath(fmt, c, polygons[j])
    decreases |polygons|
  {
    if j < |polygons| - 1 {
      PolygonPathsAt(fmt, c, polygons[..|polygons| - 1], j);
    }
  }

  lemma ImplodeWithEmptyMiddle(a: string, b: string)
    ensures Implode(" ", [a, "", b]) == a + "  " + b
  {
    assert [a, "", b][1..] == ["", b];
    assert ["", b][1..] == [b];
    assert Implode(" ", [b]) == b;
    assert Implode(" ", ["", b]) == "" + " " + b;
    assert Implode(" ", [a, "", b]) == a + " " + ("" + " " + b);
  }

  /**
   * An empty ring-set inside a MultiPolygon leaves two spaces in a row in the
   * region's path data, between the paths of its neighbours.
   */
  lemma EmptyRingSetDoubleSpace(fmt: Formatter, c: Canvas, p: RingSet, q: RingSet)
    requires Drawable(c, p) && Drawable(c, q) && p != [] && q != []
    ensures AllDrawable(c, [p, [], q])
    ensures Trim(Spaced(PolygonPaths(fmt, c, [p, [], q]))) == PolygonPath(fmt, c, p) + "  " + PolygonPath(fmt, c, q)
  {
    var ps := [p, [], q];
    assert AllDrawable(c, ps);
    var a, b := PolygonPath(fmt, c, p), PolygonPath(fmt, c, q);
    assert PolygonPaths(fmt, c, [p]) == [a] by {
      assert [p][..0] == [];
    }
    assert PolygonPaths(fmt, c, [p, []]) == [a, ""] by {
      assert [p, []][..1] == [p];
    }
    assert PolygonPaths(fmt, c, ps) == [a, "", b] by {
      assert ps[..2] == [p, []];
    }
    PathEnds(fmt, c, p);
    PathEnds(fmt, c, q);
    TrimSpaced([a, "", b]);
    ImplodeWithEmptyMiddle(a, b);
  }
}
