/**
 * The already-decoded GeoJSON document the generator works on (RFC 7946).
 * A position is `[lng, lat]` (RFC 7946 section 3.1.1); a Polygon's
 * coordinates are a ring-set, a list of rings whose first is the outer
 * boundary and the rest holes (section 3.1.6); a MultiPolygon's are a list
 * of ring-sets (section 3.1.7).
 */
module GeoJson {
  import opened Wrappers

  /** One `[lng, lat]` pair; any further member (an altitude) is ignored by the list destructuring. */
  datatype Position = Position(lng: real, lat: real)

  type Ring = seq<Position>

  /** An outer ring followed by zero or more holes. */
  type RingSet = seq<Ring>

  /** A geometry `type` the generator has no branch of its own for. */
  type OtherType = t: string | t != "Polygon" && t != "MultiPolygon" witness "GeometryCollection"

  /**
   * A geometry as the generator reads it. A Polygon carries one ring-set and
   * a MultiPolygon a list of them; the coordinates of any other type are
   * read as a list of ring-sets too when the bounds are computed, and are
   * not drawn.
   */
  datatype Geometry =
    | Polygon(rings: RingSet)
    | MultiPolygon(polygons: seq<RingSet>)
    | OtherGeometry(kind: OtherType, polygons: seq<RingSet>)
  {
    /** The geometry's `type` member. */
    function Type(): string
    {
      match this
      case Polygon(_) => "Polygon"
      case MultiPolygon(_) => "MultiPolygon"
      case OtherGeometry(kind, _) => kind
    }
  }

  /**
   * A feature: its geometry and its `properties`. A property that is
   * present with the JSON value `null` is `None`; a missing `properties`
   * member reads like an empty map.
   */
  datatype Feature = Feature(geometry: Geometry, properties: map<string, Option<string>>)

  /** The decoded document; `features` is None when the member is missing or `null`. */
  datatype GeoDocument = GeoDocument(features: Option<seq<Feature>>)

  /** `$type === 'Polygon' ? [$coords] : $coords`: the ring-sets of a geometry. */
  function RingSets(g: Geometry): seq<RingSet>
  {
    if g.Polygon? then [g.rings] else g.polygons
  }

  /** `$poly[0]`: the outer ring of a ring-set; an empty ring-set has none, so no vertices. */
  function OuterRing(rs: RingSet): Ring
  {
    if rs == [] then [] else rs[0]
  }

  /** The vertices of the outer rings of `sets`, in order. */
  ghost function OuterRingVertices(sets: seq<RingSet>): seq<Position>
    decreases |sets|
  {
    if sets == [] then [] else OuterRingVertices(sets[..|sets| - 1]) + OuterRing(sets[|sets| - 1])
  }

  /** The vertices of every outer ring of every ring-set of every feature, in document order. */
  ghost function OuterVertices(features: seq<Feature>): seq<Position>
    decreases |features|
  {
    if features == [] then []
    else OuterVertices(features[..|features| - 1]) + OuterRingVertices(RingSets(features[|features| - 1].geometry))
  }

  lemma {:induction false} OuterRingVerticesMembership(sets: seq<RingSet>, v: Position)
    ensures v in OuterRingVertices(sets) <==> exists j :: 0 <= j < |sets| && v in OuterRing(sets[j])
    decreases |sets|
  {
    if sets != [] {
      var prefix, last := sets[..|sets| - 1], sets[|sets| - 1];
      OuterRingVerticesMembership(prefix, v);
      assert OuterRingVertices(sets) == OuterRingVertices(prefix) + OuterRing(last);
      if v in OuterRingVertices(sets) {
        if v in OuterRingVertices(prefix) {
          var j :| 0 <= j < |prefix| && v in OuterRing(prefix[j]);
          assert sets[j] == prefix[j];
        } else {
          assert v in OuterRing(sets[|sets| - 1]);
        }
      }
      if exists j :: 0 <= j < |sets| && v in OuterRing(sets[j]) {
        var j :| 0 <= j < |sets| && v in OuterRing(sets[j]);
        if j < |prefix| {
          assert prefix[j] == sets[j];
          assert v in OuterRingVertices(prefix);
        }
      }
    }
  }

  /** The vertices of a feature's outer rings are among the collected vertices. */
  lemma {:induction false} OuterVerticesInclude(features: seq<Feature>, i: nat, v: Position)
    requires i < |features| && v in OuterRingVertices(RingSets(features[i].geometry))
    ensures v in OuterVertices(features)
    decreases |features|
  {
    var n := |features| - 1;
    if i < n {
      assert features[..n][i] == features[i];
      OuterVerticesInclude(features[..n], i, v);
    }
  }

  /** Every collected vertex comes from the outer rings of some feature. */
  lemma {:induction false} OuterVerticesSource(features: seq<Feature>, v: Position)
    requires v in OuterVertices(features)
    ensures exists i :: 0 <= i < |features| && v in OuterRingVertices(RingSets(features[i].geometry))
    decreases |features|
  {
    var n := |features| - 1;
    var prefix := features[..n];
    if v in OuterVertices(prefix) {
      OuterVerticesSource(prefix, v);
      var i :| 0 <= i < n && v in OuterRingVertices(RingSets(prefix[i].geometry));
      assert features[i] == prefix[i];
    } else {
      assert v in OuterRingVertices(RingSets(features[n].geometry));
    }
  }

  /**
   * A position is among the collected vertices exactly when it lies on the
   * outer ring (index 0) of some ring-set of some feature. Vertices that
   * lie only on holes are not collected.
   */
  lemma OuterVerticesMembership(features: seq<Feature>, v: Position)
    ensures v in OuterVertices(features) <==>
      exists i, j :: 0 <= i < |features| && 0 <= j < |RingSets(features[i].geometry)| &&
        v in OuterRing(RingSets(features[i].geometry)[j])
  {
    if v in OuterVertices(features) {
      OuterVerticesSource(features, v);
      var i :| 0 <= i < |features| && v in OuterRingVertices(RingSets(features[i].geometry));
      OuterRingVerticesMembership(RingSets(features[i].geometry), v);
    }
    if exists i, j :: 0 <= i < |features| && 0 <= j < |RingSets(features[i].geometry)| &&
        v in OuterRing(RingSets(features[i].geometry)[j]) {
      var i, j :| 0 <= i < |features| && 0 <= j < |RingSets(features[i].geometry)| &&
        v in OuterRing(RingSets(features[i].geometry)[j]);
      OuterRingVerticesMembership(RingSets(features[i].geometry), v);
      OuterVerticesInclude(features, i, v);
    }
  }

  /** Two feature lists that agree on every ring-set's outer ring, whatever their holes. */
  ghost predicate SameOuterRings(a: seq<Feature>, b: seq<Feature>)
  {
    |a| == |b| &&
    forall i :: 0 <= i < |a| ==>
      |RingSets(a[i].geometry)| == |RingSets(b[i].geometry)| &&
      forall j :: 0 <= j < |RingSets(a[i].geometry)| ==>
        OuterRing(RingSets(a[i].geometry)[j]) == OuterRing(RingSets(b[i].geometry)[j])
  }

  lemma {:induction false} SameOuterRingVertices(a: seq<RingSet>, b: seq<RingSet>)
    requires |a| == |b|
    requires forall j :: 0 <= j < |a| ==> OuterRing(a[j]) == OuterRing(b[j])
    ensures OuterRingVertices(a) == OuterRingVertices(b)
    decreases |a|
  {
    if a != [] {
      SameOuterRingVertices(a[..|a| - 1], b[..|b| - 1]);
    }
  }

  /** Holes never contribute: feature lists with the same outer rings have the same collected vertices. */
  lemma {:induction false} HolesDoNotContribute(a: seq<Feature>, b: seq<Feature>)
    requires SameOuterRings(a, b)
    ensures OuterVertices(a) == OuterVertices(b)
    decreases |a|
  {
    if a != [] {
      var n := |a| - 1;
      assert SameOuterRings(a[..n], b[..n]) by {
        forall i | 0 <= i < n ensures a[..n][i] == a[i] && b[..n][i] == b[i] { }
      }
      HolesDoNotContribute(a[..n], b[..n]);
      SameOuterRingVertices(RingSets(a[n].geometry), RingSets(b[n].geometry));
    }
  }
}
