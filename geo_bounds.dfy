/**
 * The geographic bounding box (`calculateGeoBounds`): one pass over the
 * outer ring of every ring-set of every feature, widening four
 * accumulators that start at +INF (minima) and -INF (maxima).
 */
module GeoBounds {
  import opened Wrappers
  import opened GeoJson
  import opened PhpStrings

  /** `[$minLat, $maxLat, $minLng, $maxLng]`. */
  datatype Bounds = Bounds(minLat: real, maxLat: real, minLng: real, maxLng: real)

  /** Every position lies inside the box. */
  ghost predicate Encloses(b: Bounds, vs: seq<Position>)
  {
    forall v :: v in vs ==> b.minLat <= v.lat <= b.maxLat && b.minLng <= v.lng <= b.maxLng
  }

  /** Each of the four edges of the box is touched by some position. */
  ghost predicate Attained(b: Bounds, vs: seq<Position>)
  {
    (exists v :: v in vs && v.lat == b.minLat) &&
    (exists v :: v in vs && v.lat == b.maxLat) &&
    (exists v :: v in vs && v.lng == b.minLng) &&
    (exists v :: v in vs && v.lng == b.maxLng)
  }

  /**
   * `ob` is the smallest box around `vs`: enclosing and touched on every
   * edge. With no position at all the accumulators keep their infinite
   * seeds, which is `None` here.
   */
  ghost predicate IsTightBounds(vs: seq<Position>, ob: Option<Bounds>)
  {
    if vs == [] then ob.None? else ob.Some? && Encloses(ob.value, vs) && Attained(ob.value, vs)
  }

  /** There is only one tightest box around a list of positions. */
  lemma TightBoundsUnique(vs: seq<Position>, a: Option<Bounds>, b: Option<Bounds>)
    requires IsTightBounds(vs, a) && IsTightBounds(vs, b)
    ensures a == b
  {
    if vs != [] {
      var p :| p in vs && p.lat == a.value.minLat;
      var q :| q in vs && q.lat == b.value.minLat;
      var p' :| p' in vs && p'.lat == a.value.maxLat;
      var q' :| q' in vs && q'.lat == b.value.maxLat;
      var r :| r in vs && r.lng == a.value.minLng;
      var s :| s in vs && s.lng == b.value.minLng;
      var r' :| r' in vs && r'.lng == a.value.maxLng;
      var s' :| s' in vs && s'.lng == b.value.maxLng;
    }
  }

  /** A tight box is never inverted: minLat <= maxLat and minLng <= maxLng. */
  lemma TightBoundsOrdered(vs: seq<Position>, b: Bounds)
    requires IsTightBounds(vs, Some(b))
    ensures b.minLat <= b.maxLat && b.minLng <= b.maxLng
  {
    var v :| v in vs && v.lat == b.minLat;
  }

  function Min(a: real, b: real): real { if a <= b then a else b }

  function Max(a: real, b: real): real { if a >= b then a else b }

  /** The accumulators as a box; `seen` is false while they still hold their infinite seeds. */
  function Accumulated(seen: bool, minLat: real, maxLat: real, minLng: real, maxLng: real): Option<Bounds>
  {
    if seen then Some(Bounds(minLat, maxLat, minLng, maxLng)) else None
  }

  /** One step of the fold, `min($minLat, $lat)`, `max($maxLat, $lat)` and so on; None stands for the infinite seeds. */
  function Widen(ob: Option<Bounds>, v: Position): Bounds
  {
    if ob.None? then Bounds(v.lat, v.lat, v.lng, v.lng)
    else Bounds(Min(ob.value.minLat, v.lat), Max(ob.value.maxLat, v.lat),
                Min(ob.value.minLng, v.lng), Max(ob.value.maxLng, v.lng))
  }

  /** Widening the tight box of `vs` by `v` gives the tight box of `vs + [v]`. */
  lemma WidenKeepsTight(vs: seq<Position>, ob: Option<Bounds>, v: Position)
    requires IsTightBounds(vs, ob)
    ensures IsTightBounds(vs + [v], Some(Widen(ob, v)))
  {
    var ws := vs + [v];
    assert v in ws;
    if ob.Some? {
      var b := ob.value;
      var p :| p in vs && p.lat == b.minLat;
      var q :| q in vs && q.lat == b.maxLat;
      var r :| r in vs && r.lng == b.minLng;
      var s :| s in vs && s.lng == b.maxLng;
      assert p in ws && q in ws && r in ws && s in ws;
      forall u | u in ws
        ensures Min(b.minLat, v.lat) <= u.lat <= Max(b.maxLat, v.lat)
        ensures Min(b.minLng, v.lng) <= u.lng <= Max(b.maxLng, v.lng)
      {
        if u != v { assert u in vs; }
      }
    } else {
      forall u | u in ws ensures u == v {
        assert u in vs || u == v;
      }
    }
  }

  lemma OuterRingVerticesStep(before: seq<Position>, polys: seq<RingSet>, j: nat)
    requires j < |polys|
    ensures (before + OuterRingVertices(polys[..j])) + OuterRing(polys[j]) == before + OuterRingVertices(polys[..j + 1])
  {
    assert polys[..j + 1][..j] == polys[..j];
  }

  lemma OuterVerticesStep(features: seq<Feature>, i: nat)
    requires i < |features|
    ensures OuterVertices(features[..i + 1]) == OuterVertices(features[..i]) + OuterRingVertices(RingSets(features[i].geometry))
  {
    assert features[..i + 1][..i] == features[..i];
  }

  lemma AppendTakeStep<T>(a: seq<T>, b: seq<T>, k: nat)
    requires k < |b|
    ensures a + b[..k + 1] == (a + b[..k]) + [b[k]]
  {
    assert b[..k + 1] == b[..k] + [b[k]];
  }

  /**
   * The innermost loop of `calculateGeoBounds()`: widens the four
   * accumulators by every vertex of one outer ring. `seen` is false while
   * they still hold their infinite seeds.
   */
  method WidenByRing(ghost done: seq<Position>, ring: Ring, seen0: bool, minLat0: real, maxLat0: real, minLng0: real, maxLng0: real)
    returns (seen: bool, minLat: real, maxLat: real, minLng: real, maxLng: real)
    requires IsTightBounds(done, Accumulated(seen0, minLat0, maxLat0, minLng0, maxLng0))
    ensures IsTightBounds(done + ring, Accumulated(seen, minLat, maxLat, minLng, maxLng))
  {
    seen, minLat, maxLat, minLng, maxLng := seen0, minLat0, maxLat0, minLng0, maxLng0;
    assert done + ring[..0] == done;
    for k := 0 to |ring|
      invariant IsTightBounds(done + ring[..k], Accumulated(seen, minLat, maxLat, minLng, maxLng))
    {
      var lng, lat := ring[k].lng, ring[k].lat;
      ghost var acc := Accumulated(seen, minLat, maxLat, minLng, maxLng);
      WidenKeepsTight(done + ring[..k], acc, ring[k]);
      AppendTakeStep(done, ring, k);
      if !seen {
        minLat, maxLat, minLng, maxLng := lat, lat, lng, lng;
        seen := true;
      } else {
        minLat := Min(minLat, lat);
        maxLat := Max(maxLat, lat);
        minLng := Min(minLng, lng);
        maxLng := Max(maxLng, lng);
      }
      assert Accumulated(seen, minLat, maxLat, minLng, maxLng) == Some(Widen(acc, ring[k]));
    }
    assert ring[..|ring|] == ring;
  }

  /**
   * `calculateGeoBounds()`: the tightest box around the outer-ring vertices
   * of all features, or None when there is no such vertex (the +INF/-INF
   * seeds are returned unchanged).
   */
  method CalculateGeoBounds(features: seq<Feature>) returns (bounds: Option<Bounds>)
    ensures IsTightBounds(OuterVertices(features), bounds)
  {
    var seen := false;
    var minLat, maxLat, minLng, maxLng := 0.0, 0.0, 0.0, 0.0;
    for i := 0 to |features|
      invariant IsTightBounds(OuterVertices(features[..i]), Accumulated(seen, minLat, maxLat, minLng, maxLng))
    {
      var polys := RingSets(features[i].geometry);
      ghost var before := OuterVertices(features[..i]);
      assert before + OuterRingVertices(polys[..0]) == before;
      for j := 0 to |polys|
        invariant IsTightBounds(before + OuterRingVertices(polys[..j]), Accumulated(seen, minLat, maxLat, minLng, maxLng))
      {
        seen, minLat, maxLat, minLng, maxLng :=
          WidenByRing(before + OuterRingVertices(polys[..j]), OuterRing(polys[j]), seen, minLat, maxLat, minLng, maxLng);
        OuterRingVerticesStep(before, polys, j);
      }
      assert polys[..|polys|] == polys;
      OuterVerticesStep(features, i);
    }
    assert features[..|features|] == features;
    bounds := Accumulated(seen, minLat, maxLat, minLng, maxLng);
  }

  /**
   * Holes never affect the bounds: two documents whose ring-sets have the
   * same outer rings get the same box, whatever their inner rings are.
   */
  lemma HolesNeverAffectBounds(a: seq<Feature>, b: seq<Feature>, boundsA: Option<Bounds>, boundsB: Option<Bounds>)
    requires SameOuterRings(a, b)
    requires IsTightBounds(OuterVertices(a), boundsA) && IsTightBounds(OuterVertices(b), boundsB)
    ensures boundsA == boundsB
  {
    HolesDoNotContribute(a, b);
    TightBoundsUnique(OuterVertices(a), boundsA, boundsB);
  }
}
