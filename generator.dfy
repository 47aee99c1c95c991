/**
 * The generator object (`GeoMapSvgGenerator`) and the document
 * `generateSvg()` writes: an `<svg>` element holding one `<path>` per
 * feature, in order, and then the markup of every marker, in order.
 *
 * The strings the source interpolates are described as trees of elements
 * (module Markup); the text the method builds is the serialization of the
 * tree the specification functions below compute.
 */
module Generator {
  import opened Wrappers
  import opened Errors
  import opened GeoJson
  import opened GeoBounds
  import opened Projection
  import opened PhpStrings
  import opened Html
  import opened Markup
  import opened PathBuilder
  import opened Markers

  /** The constructor's defaults. */
  const DefaultWidth: int := 800
  const DefaultHeight: int := 600
  const DefaultShowTooltips: bool := true
  const DefaultLanguage: string := "uk"

  /** The name of a feature without one. */
  const NoName: string := "—"

  const SvgNamespace: string := "http://www.w3.org/2000/svg"

  /**
   * `$props["name:$lang"] ?? $props['name'] ?? '—'`. `??` passes over a
   * missing key and a `null` alike, so the result is always one of the
   * feature's own property values or the dash.
   */
  function ResolveName(props: map<string, Option<string>>, language: string): (name: string)
    ensures name == NoName || exists k :: k in props && props[k] == Some(name)
  {
    var localized := "name:" + language;
    if localized in props && props[localized].Some? then props[localized].value
    else if "name" in props && props["name"].Some? then props["name"].value
    else NoName
  }

  /** The localized name wins over `name`, and the dash is used only when neither is set. */
  lemma ResolveNamePriority(props: map<string, Option<string>>, language: string)
    ensures var localized := "name:" + language;
      (localized in props && props[localized].Some? ==> ResolveName(props, language) == props[localized].value) &&
      (!(localized in props && props[localized].Some?) && "name" in props && props["name"].Some? ==>
         ResolveName(props, language) == props["name"].value) &&
      (!(localized in props && props[localized].Some?) && !("name" in props && props["name"].Some?) ==>
         ResolveName(props, language) == NoName)
  {
  }

  /** The ring-sets a geometry draws: one for a Polygon, each of a MultiPolygon's, none for any other type. */
  function DrawnRingSets(g: Geometry): seq<RingSet>
  {
    match g
    case Polygon(rings) => [rings]
    case MultiPolygon(polygons) => polygons
    case OtherGeometry(_, _) => []
  }

  /** Some ring the geometry draws has a vertex, so drawing it projects a position. */
  predicate Draws(g: Geometry)
  {
    exists j, k :: 0 <= j < |DrawnRingSets(g)| && 0 <= k < |DrawnRingSets(g)[j]| && DrawnRingSets(g)[j][k] != []
  }

  /**
   * The `d` attribute of a feature's path, `trim($path)`: the ring-set's
   * path for a Polygon, the paths of a MultiPolygon's ring-sets each
   * followed by a space, and nothing for any other type.
   */
  function RegionPath(fmt: Formatter, c: Canvas, g: Geometry): (r: Result<string, Exception>)
    ensures r.Failure? ==> r.error == DivisionByZero
  {
    match g
    case Polygon(rings) =>
      if Drawable(c, rings) then Success(Trim(PolygonPath(fmt, c, rings))) else Failure(DivisionByZero)
    case MultiPolygon(polygons) =>
      if AllDrawable(c, polygons) then Success(Trim(Spaced(PolygonPaths(fmt, c, polygons)))) else Failure(DivisionByZero)
    case OtherGeometry(_, _) => Success("")
  }

  /** Drawing a feature throws exactly when the box is degenerate and the feature has a vertex to project. */
  lemma RegionPathFailsIff(fmt: Formatter, c: Canvas, g: Geometry)
    ensures RegionPath(fmt, c, g).Failure? <==> Degenerate(c) && Draws(g)
  {
    var sets := DrawnRingSets(g);
    if Degenerate(c) && Draws(g) {
      var j, k :| 0 <= j < |sets| && 0 <= k < |sets[j]| && sets[j][k] != [];
      assert !Drawable(c, sets[j]);
    }
    if RegionPath(fmt, c, g).Failure? {
      if g.Polygon? {
        var k :| 0 <= k < |g.rings| && g.rings[k] != [];
        assert sets[0][k] != [];
      } else {
        var j :| 0 <= j < |g.polygons| && !Drawable(c, g.polygons[j]);
        var k :| 0 <= k < |g.polygons[j]| && g.polygons[j][k] != [];
        assert sets[j][k] != [];
      }
    }
  }

  /** A Polygon's path is `renderPolygon()`'s result as it is: it starts with `M` and ends with `Z`, so trimming keeps it. */
  lemma PolygonRegionPath(fmt: Formatter, c: Canvas, rings: RingSet)
    requires Drawable(c, rings)
    ensures RegionPath(fmt, c, Polygon(rings)) == Success(PolygonPath(fmt, c, rings))
  {
    if rings != [] {
      PathEnds(fmt, c, rings);
    }
    TrimUntrimmed(PolygonPath(fmt, c, rings));
  }

  /**
   * A MultiPolygon whose ring-sets all have rings is drawn exactly like one
   * Polygon holding all their rings: one path with an `M ... Z` per ring.
   */
  lemma MultiPolygonRegionPath(fmt: Formatter, c: Canvas, polygons: seq<RingSet>)
    requires AllDrawable(c, polygons)
    requires forall j :: 0 <= j < |polygons| ==> polygons[j] != []
    ensures RegionPath(fmt, c, MultiPolygon(polygons)) == RegionPath(fmt, c, Polygon(Flatten(polygons)))
  {
    MultiPolygonAsOnePolygon(fmt, c, polygons);
    PolygonRegionPath(fmt, c, Flatten(polygons));
  }

  /** `<path class='region' d='...' fill-rule='evenodd'>`, with the escaped name as its tooltip when tooltips are on. */
  function RegionNode(name: string, path: string, showTooltips: bool): Node
  {
    Element("path", '\'', [Attr("class", "region"), Attr("d", path), Attr("fill-rule", "evenodd")],
      if showTooltips then [TitleNode(HtmlSpecialChars(name))] else [])
  }

  /** A region has a tooltip exactly when tooltips are on, and the tooltip reads back as the name. */
  lemma RegionTooltip(name: string, path: string, showTooltips: bool)
    ensures var n := RegionNode(name, path, showTooltips);
      (n.children != [] <==> showTooltips) &&
      (showTooltips ==> n.children == [TitleNode(HtmlSpecialChars(name))] && Unescape(n.children[0].children[0].content) == name)
  {
    UnescapeEscape(name);
  }

  /** The `<path>` of every feature, in order; the first feature that throws ends the document. */
  function Regions(fmt: Formatter, c: Canvas, features: seq<Feature>, language: string, showTooltips: bool): (r: Result<seq<Node>, Exception>)
    ensures r.Failure? ==> r.error == DivisionByZero
    ensures r.Success? ==> |r.value| == |features|
    decreases |features|
  {
    if features == [] then Success([])
    else
      var f := Last(features);
      match Regions(fmt, c, features[..|features| - 1], language, showTooltips)
      case Failure(e) => Failure(e)
      case Success(ns) =>
        match RegionPath(fmt, c, f.geometry)
        case Failure(e) => Failure(e)
        case Success(path) => Success(ns + [RegionNode(ResolveName(f.properties, language), path, showTooltips)])
  }

  /** The elements of every marker, in order. */
  function MarkerTrees(fmt: Formatter, c: Canvas, markers: seq<Marker>): (r: Result<seq<Node>, Exception>)
    ensures r.Failure? ==> r.error == DivisionByZero
    decreases |markers|
  {
    if markers == [] then Success([])
    else
      match MarkerTrees(fmt, c, markers[..|markers| - 1])
      case Failure(e) => Failure(e)
      case Success(ns) =>
        match MarkerTree(fmt, c, Last(markers))
        case Failure(e) => Failure(e)
        case Success(ms) => Success(ns + ms)
  }

  /** `viewBox='0 0 {$width} {$height}'`. */
  function ViewBox(width: int, height: int): string
  {
    "0 0 " + IntToString(width) + " " + IntToString(height)
  }

  /** The `viewBox` value splits at its spaces into `0`, `0`, the width and the height. */
  lemma ViewBoxFields(width: int, height: int)
    ensures Explode(' ', ViewBox(width, height)) == ["0", "0", IntToString(width), IntToString(height)]
  {
    var w, h := IntToString(width), IntToString(height);
    var pieces := ["0", "0", w, h];
    assert pieces[1..] == ["0", w, h] && pieces[1..][1..] == [w, h] && [w, h][1..] == [h];
    assert Implode(" ", [w, h]) == w + " " + h;
    assert Implode(" ", ["0", w, h]) == "0" + " " + (w + " " + h);
    assert Implode(" ", pieces) == "0" + " " + ("0" + " " + (w + " " + h));
    assert ViewBox(width, height) == Implode([' '], pieces);
    assert ' ' !in w && ' ' !in h;
    ExplodeImplode(' ', pieces);
  }

  function SvgAttrs(width: int, height: int): seq<Attr>
  {
    [Attr("viewBox", ViewBox(width, height)), Attr("xmlns", SvgNamespace)]
  }

  /** The whole document: the `<svg>` element around the regions and then the markers. */
  function SvgDocument(width: int, height: int, children: seq<Node>): Node
  {
    Element("svg", '\'', SvgAttrs(width, height), children)
  }

  /** What `generateSvg()` returns, or the exception it throws. */
  function Output(fmt: Formatter, c: Canvas, features: seq<Feature>, markers: seq<Marker>, language: string, showTooltips: bool): (r: Result<string, Exception>)
    ensures r.Failure? ==> r.error == DivisionByZero
  {
    match Regions(fmt, c, features, language, showTooltips)
    case Failure(e) => Failure(e)
    case Success(regions) =>
      match MarkerTrees(fmt, c, markers)
      case Failure(e) => Failure(e)
      case Success(marks) => Success(Serialize(SvgDocument(c.width, c.height, regions + marks)))
  }

  lemma {:induction false} RegionsPrefixFails(fmt: Formatter, c: Canvas, features: seq<Feature>, language: string, showTooltips: bool, n: nat)
    requires n <= |features| && Regions(fmt, c, features[..n], language, showTooltips).Failure?
    ensures Regions(fmt, c, features, language, showTooltips).Failure?
    decreases |features|
  {
    if n == |features| {
      assert features[..n] == features;
    } else {
      var prefix := features[..|features| - 1];
      assert prefix[..n] == features[..n];
      RegionsPrefixFails(fmt, c, prefix, language, showTooltips, n);
    }
  }

  lemma {:induction false} MarkerTreesPrefixFails(fmt: Formatter, c: Canvas, markers: seq<Marker>, n: nat)
    requires n <= |markers| && MarkerTrees(fmt, c, markers[..n]).Failure?
    ensures MarkerTrees(fmt, c, markers).Failure?
    decreases |markers|
  {
    if n == |markers| {
      assert markers[..n] == markers;
    } else {
      var prefix := markers[..|markers| - 1];
      assert prefix[..n] == markers[..n];
      MarkerTreesPrefixFails(fmt, c, prefix, n);
    }
  }

  lemma PolygonPathsStep(fmt: Formatter, c: Canvas, polygons: seq<RingSet>, j: nat)
    requires j < |polygons| && AllDrawable(c, polygons[..j]) && Drawable(c, polygons[j])
    ensures AllDrawable(c, polygons[..j + 1])
    ensures Spaced(PolygonPaths(fmt, c, polygons[..j + 1])) ==
      Spaced(PolygonPaths(fmt, c, polygons[..j])) + PolygonPath(fmt, c, polygons[j]) + " "
  {
    assert polygons[..j + 1][..j] == polygons[..j];
    assert forall i :: 0 <= i < j ==> polygons[..j + 1][i] == polygons[..j][i];
    SpacedSnoc(PolygonPaths(fmt, c, polygons[..j]), PolygonPath(fmt, c, polygons[j]));
  }

  lemma RegionsStep(fmt: Formatter, c: Canvas, features: seq<Feature>, language: string, showTooltips: bool, i: nat, regions: seq<Node>, path: string)
    requires i < |features|
    requires Regions(fmt, c, features[..i], language, showTooltips) == Success(regions)
    requires RegionPath(fmt, c, features[i].geometry) == Success(path)
    ensures Regions(fmt, c, features[..i + 1], language, showTooltips) ==
      Success(regions + [RegionNode(ResolveName(features[i].properties, language), path, showTooltips)])
  {
    var prefix := features[..i + 1];
    assert prefix[..|prefix| - 1] == features[..i];
    assert Last(prefix) == features[i];
  }

  lemma MarkerTreesStep(fmt: Formatter, c: Canvas, markers: seq<Marker>, i: nat, marks: seq<Node>, ms: seq<Node>)
    requires i < |markers|
    requires MarkerTrees(fmt, c, markers[..i]) == Success(marks)
    requires MarkerTree(fmt, c, markers[i]) == Success(ms)
    ensures MarkerTrees(fmt, c, markers[..i + 1]) == Success(marks + ms)
  {
    assert markers[..i + 1][..i] == markers[..i];
  }

  lemma SerializeSnoc(ns: seq<Node>, ms: seq<Node>)
    ensures SerializeAll(ns + ms) == SerializeAll(ns) + SerializeAll(ms)
  {
    SerializeAllConcat(ns, ms);
  }

  lemma OutputWritten(fmt: Formatter, c: Canvas, features: seq<Feature>, markers: seq<Marker>, language: string, showTooltips: bool,
                      regions: seq<Node>, marks: seq<Node>)
    requires Regions(fmt, c, features, language, showTooltips) == Success(regions)
    requires MarkerTrees(fmt, c, markers) == Success(marks)
    ensures Output(fmt, c, features, markers, language, showTooltips) ==
      Success(OpenTag("svg", '\'', SvgAttrs(c.width, c.height)) + SerializeAll(regions) + SerializeAll(marks) + CloseTag("svg"))
  {
    var doc := SvgDocument(c.width, c.height, regions + marks);
    var open, close := OpenTag("svg", '\'', SvgAttrs(c.width, c.height)), CloseTag("svg");
    assert Serialize(doc) == open + SerializeAll(regions + marks) + close;
    SerializeAllConcat(regions, marks);
    ConcatAssoc(open, SerializeAll(regions), SerializeAll(marks));
  }

  lemma OutputThrows(fmt: Formatter, c: Canvas, features: seq<Feature>, markers: seq<Marker>, language: string, showTooltips: bool)
    requires Regions(fmt, c, features, language, showTooltips).Failure? ||
      (Regions(fmt, c, features, language, showTooltips).Success? && MarkerTrees(fmt, c, markers).Failure?)
    ensures Output(fmt, c, features, markers, language, showTooltips) == Failure(DivisionByZero)
  {
  }

  /** A marker with both coordinates, which `renderMarker()` draws. */
  predicate Placed(m: Marker)
  {
    m.lat.Some? && m.lng.Some?
  }

  /** The elements of one region: the `<path>`, and its `<title>` when tooltips are on. */
  function RegionElements(showTooltips: bool): nat
  {
    if showTooltips then 2 else 1
  }

  /** The elements drawn for a list of markers. */
  function PlacedElements(markers: seq<Marker>): nat
    decreases |markers|
  {
    if markers == [] then 0
    else PlacedElements(markers[..|markers| - 1]) + (if Placed(Last(markers)) then ModeElements(ModeOf(Last(markers))) else 0)
  }

  /** No drawn marker has a markup character in its extra class. */
  predicate PlainClasses(markers: seq<Marker>)
  {
    forall i :: 0 <= i < |markers| && Placed(markers[i]) ==>
      IsEmpty(markers[i].extraClass) || NoMarkup(markers[i].extraClass.value)
  }

  /** Some feature has a vertex to draw. */
  predicate DrawsAny(features: seq<Feature>)
  {
    exists i :: 0 <= i < |features| && Draws(features[i].geometry)
  }

  predicate PlacesAny(markers: seq<Marker>)
  {
    exists i :: 0 <= i < |markers| && Placed(markers[i])
  }

  lemma DrawsAnySnoc(features: seq<Feature>)
    requires features != []
    ensures DrawsAny(features) <==> DrawsAny(features[..|features| - 1]) || Draws(Last(features).geometry)
  {
    var prefix := features[..|features| - 1];
    assert forall i :: 0 <= i < |prefix| ==> prefix[i] == features[i];
    assert features[|features| - 1] == Last(features);
  }

  lemma PlacesAnySnoc(markers: seq<Marker>)
    requires markers != []
    ensures PlacesAny(markers) <==> PlacesAny(markers[..|markers| - 1]) || Placed(Last(markers))
  {
    var prefix := markers[..|markers| - 1];
    assert forall i :: 0 <= i < |prefix| ==> prefix[i] == markers[i];
    assert markers[|markers| - 1] == Last(markers);
  }

  lemma {:induction false} RegionsFailIff(fmt: Formatter, c: Canvas, features: seq<Feature>, language: string, showTooltips: bool)
    ensures Regions(fmt, c, features, language, showTooltips).Failure? <==> Degenerate(c) && DrawsAny(features)
    decreases |features|
  {
    if features != [] {
      var prefix := features[..|features| - 1];
      RegionsFailIff(fmt, c, prefix, language, showTooltips);
      RegionPathFailsIff(fmt, c, Last(features).geometry);
      DrawsAnySnoc(features);
    }
  }

  lemma {:induction false} MarkerTreesFailIff(fmt: Formatter, c: Canvas, markers: seq<Marker>)
    ensures MarkerTrees(fmt, c, markers).Failure? <==> Degenerate(c) && PlacesAny(markers)
    decreases |markers|
  {
    if markers != [] {
      var prefix := markers[..|markers| - 1];
      MarkerTreesFailIff(fmt, c, prefix);
      PlacesAnySnoc(markers);
    }
  }

  /**
   * `generateSvg()` throws exactly when the box is degenerate (it spans no
   * longitude or no latitude) and something has to be projected: a vertex
   * of a drawn ring, or a marker with both coordinates.
   */
  lemma OutputFailsIff(fmt: Formatter, c: Canvas, features: seq<Feature>, markers: seq<Marker>, language: string, showTooltips: bool)
    ensures Output(fmt, c, features, markers, language, showTooltips).Failure? <==>
      Degenerate(c) && (DrawsAny(features) || PlacesAny(markers))
  {
    RegionsFailIff(fmt, c, features, language, showTooltips);
    MarkerTreesFailIff(fmt, c, markers);
  }

  lemma NoMarkupTrim(s: string)
    requires NoMarkup(s)
    ensures NoMarkup(Trim(s))
  {
    var t := TrimLeft(s);
    var r := TrimRight(t);
    forall i | 0 <= i < |r| ensures !IsMarkupChar(r[i]) {
      assert r[i] == t[i] == s[|s| - |t| + i];
    }
  }

  lemma NoMarkupPolygonPath(fmt: Formatter, c: Canvas, rings: RingSet)
    requires NumeralFormatter(fmt) && Drawable(c, rings)
    ensures NoMarkup(PolygonPath(fmt, c, rings))
  {
    var ts := PolygonTokens(fmt, c, rings);
    PolygonTokensArePlain(fmt, c, rings);
    assert forall k :: 0 <= k < |ts| ==> ts[k] in ts;
    NoMarkupImplode(ts);
  }

  lemma {:induction false} NoMarkupPolygonPaths(fmt: Formatter, c: Canvas, polygons: seq<RingSet>)
    requires NumeralFormatter(fmt) && AllDrawable(c, polygons)
    ensures NoMarkup(Spaced(PolygonPaths(fmt, c, polygons)))
    decreases |polygons|
  {
    if polygons != [] {
      var prefix := polygons[..|polygons| - 1];
      assert AllDrawable(c, prefix) by {
        assert forall j :: 0 <= j < |prefix| ==> prefix[j] == polygons[j];
      }
      NoMarkupPolygonPaths(fmt, c, prefix);
      var paths := PolygonPaths(fmt, c, polygons);
      assert paths[..|paths| - 1] == PolygonPaths(fmt, c, prefix);
      NoMarkupPolygonPath(fmt, c, Last(polygons));
      NoMarkupConcat(Spaced(PolygonPaths(fmt, c, prefix)), Last(paths));
      NoMarkupConcat(Spaced(PolygonPaths(fmt, c, prefix)) + Last(paths), " ");
    }
  }

  /** Under a formatter that writes numerals a path holds no markup character: only numerals, commas, spaces, `M` and `Z`. */
  lemma RegionPathPlain(fmt: Formatter, c: Canvas, g: Geometry)
    requires NumeralFormatter(fmt) && RegionPath(fmt, c, g).Success?
    ensures NoMarkup(RegionPath(fmt, c, g).value)
  {
    match g
    case Polygon(rings) =>
      NoMarkupPolygonPath(fmt, c, rings);
      NoMarkupTrim(PolygonPath(fmt, c, rings));
    case MultiPolygon(polygons) =>
      NoMarkupPolygonPaths(fmt, c, polygons);
      NoMarkupTrim(Spaced(PolygonPaths(fmt, c, polygons)));
    case OtherGeometry(_, _) =>
  }

  /** The element and attribute names and the fixed values of the document and region templates. */
  lemma DocumentLiterals()
    ensures IsName("svg") && IsName("viewBox") && IsName("xmlns") && NoMarkup(SvgNamespace)
    ensures NoMarkup("0 0 ") && NoMarkup(" ")
    ensures IsName("path") && IsName("class") && IsName("d") && IsName("fill-rule") && IsName("title")
    ensures NoMarkup("region") && NoMarkup("evenodd")
  {
  }

  lemma RegionNodeWellFormed(name: string, path: string, showTooltips: bool)
    requires NoMarkup(path)
    ensures WellFormed(RegionNode(name, path, showTooltips))
    ensures ElementCount(RegionNode(name, path, showTooltips)) == RegionElements(showTooltips)
  {
    var n := RegionNode(name, path, showTooltips);
    DocumentLiterals();
    assert WellFormedAttrs(n.attrs);
    if showTooltips {
      var t := TitleNode(HtmlSpecialChars(name));
      TitleNodeElements(HtmlSpecialChars(name));
      assert n.children == [t] && n.children[1..] == [];
      assert ElementsCount(n.children) == ElementCount(t) + ElementsCount([]);
      assert WellFormed(t);
    }
  }

  lemma RegionsSnoc(fmt: Formatter, c: Canvas, features: seq<Feature>, language: string, showTooltips: bool)
    requires features != [] && Regions(fmt, c, features, language, showTooltips).Success?
    ensures var f := Last(features);
      Regions(fmt, c, features[..|features| - 1], language, showTooltips).Success? &&
      RegionPath(fmt, c, f.geometry).Success? &&
      Regions(fmt, c, features, language, showTooltips).value ==
        Regions(fmt, c, features[..|features| - 1], language, showTooltips).value +
        [RegionNode(ResolveName(f.properties, language), RegionPath(fmt, c, f.geometry).value, showTooltips)]
  {
  }

  lemma {:induction false} RegionsWellFormed(fmt: Formatter, c: Canvas, features: seq<Feature>, language: string, showTooltips: bool)
    requires NumeralFormatter(fmt) && Regions(fmt, c, features, language, showTooltips).Success?
    ensures var regions := Regions(fmt, c, features, language, showTooltips).value;
      AllWellFormed(regions) && ElementsCount(regions) == |features| * RegionElements(showTooltips)
    decreases |features|
  {
    if features != [] {
      var prefix := features[..|features| - 1];
      var f := Last(features);
      RegionsSnoc(fmt, c, features, language, showTooltips);
      RegionsWellFormed(fmt, c, prefix, language, showTooltips);
      var ns := Regions(fmt, c, prefix, language, showTooltips).value;
      var path := RegionPath(fmt, c, f.geometry).value;
      RegionPathPlain(fmt, c, f.geometry);
      var n := RegionNode(ResolveName(f.properties, language), path, showTooltips);
      RegionNodeWellFormed(ResolveName(f.properties, language), path, showTooltips);
      AllWellFormedConcat(ns, [n]);
      ElementsCountConcat(ns, [n]);
      assert [n][1..] == [];
      assert ElementsCount([n]) == ElementCount(n) + ElementsCount([]);
      var k := RegionElements(showTooltips);
      assert |features| * k == |prefix| * k + k;
    }
  }

  lemma {:induction false} MarkerTreesWellFormed(fmt: Formatter, c: Canvas, markers: seq<Marker>)
    requires NumeralFormatter(fmt) && PlainClasses(markers) && MarkerTrees(fmt, c, markers).Success?
    ensures var marks := MarkerTrees(fmt, c, markers).value;
      AllWellFormed(marks) && ElementsCount(marks) == PlacedElements(markers)
    decreases |markers|
  {
    if markers != [] {
      var prefix := markers[..|markers| - 1];
      var m := Last(markers);
      assert PlainClasses(prefix) by {
        assert forall i :: 0 <= i < |prefix| ==> prefix[i] == markers[i];
      }
      MarkerTreesWellFormed(fmt, c, prefix);
      var ns := MarkerTrees(fmt, c, prefix).value;
      var ms := MarkerTree(fmt, c, m).value;
      if Placed(m) {
        assert markers[|markers| - 1] == m;
        MarkerWellFormedIff(fmt, Placement(c, m), m);
        MarkerElementCount(fmt, Placement(c, m), m);
      }
      AllWellFormedConcat(ns, ms);
      ElementsCountConcat(ns, ms);
    }
  }

  lemma SvgAttrsWellFormed(width: int, height: int)
    ensures WellFormedAttrs(SvgAttrs(width, height))
  {
    var w, h := IntToString(width), IntToString(height);
    assert NoMarkup(w) && NoMarkup(h);
    NoMarkupConcat("0 0 " + w, " ");
    NoMarkupConcat("0 0 ", w);
    NoMarkupConcat("0 0 " + w + " ", h);
    DocumentLiterals();
  }

  /**
   * Nothing a document or a marker holds can open or close a tag: when no
   * drawn marker has a markup character in its extra class, the document
   * has exactly two `<` per element — the `<svg>`, a `<path>` (and its
   * `<title>` with tooltips on) per feature, and the elements of each drawn
   * marker.
   */
  lemma OutputTagCount(fmt: Formatter, c: Canvas, features: seq<Feature>, markers: seq<Marker>, language: string, showTooltips: bool)
    requires NumeralFormatter(fmt) && PlainClasses(markers)
    requires Output(fmt, c, features, markers, language, showTooltips).Success?
    ensures Count(Output(fmt, c, features, markers, language, showTooltips).value, '<') ==
      2 * (1 + |features| * RegionElements(showTooltips) + PlacedElements(markers))
  {
    OutputDocument(fmt, c, features, markers, language, showTooltips);
    var regions := Regions(fmt, c, features, language, showTooltips).value;
    var marks := MarkerTrees(fmt, c, markers).value;
    RegionsWellFormed(fmt, c, features, language, showTooltips);
    MarkerTreesWellFormed(fmt, c, markers);
    AllWellFormedConcat(regions, marks);
    ElementsCountConcat(regions, marks);
    SvgDocumentTags(c.width, c.height, regions + marks);
  }

  lemma OutputDocument(fmt: Formatter, c: Canvas, features: seq<Feature>, markers: seq<Marker>, language: string, showTooltips: bool)
    requires Output(fmt, c, features, markers, language, showTooltips).Success?
    ensures Regions(fmt, c, features, language, showTooltips).Success? && MarkerTrees(fmt, c, markers).Success?
    ensures Output(fmt, c, features, markers, language, showTooltips).value ==
      Serialize(SvgDocument(c.width, c.height, Regions(fmt, c, features, language, showTooltips).value + MarkerTrees(fmt, c, markers).value))
  {
  }

  lemma SvgDocumentTags(width: int, height: int, children: seq<Node>)
    requires AllWellFormed(children)
    ensures Count(Serialize(SvgDocument(width, height, children)), '<') == 2 * (1 + ElementsCount(children))
  {
    SvgAttrsWellFormed(width, height);
    DocumentLiterals();
    TagCount(SvgDocument(width, height, children));
  }

  /**
   * The type switch of `generateSvg()` for one feature: `renderPolygon()`
   * for a Polygon, `renderPolygon($poly) . ' '` for each ring-set of a
   * MultiPolygon, nothing for any other type; then `trim()`.
   */
  method RenderRegionPath(fmt: Formatter, c: Canvas, g: Geometry) returns (r: Result<string, Exception>)
    ensures r == RegionPath(fmt, c, g)
  {
    var path := "";
    match g {
      case Polygon(rings) =>
        var p := RenderPolygon(fmt, c, rings);
        if p.Failure? {
          return Failure(p.error);
        }
        path := p.value;
      case MultiPolygon(polygons) =>
        assert polygons[..0] == [];
        for j := 0 to |polygons|
          invariant AllDrawable(c, polygons[..j])
          invariant path == Spaced(PolygonPaths(fmt, c, polygons[..j]))
        {
          var p := RenderPolygon(fmt, c, polygons[j]);
          if p.Failure? {
            return Failure(p.error);
          }
          PolygonPathsStep(fmt, c, polygons, j);
          path := path + p.value + " ";
        }
        assert polygons[..|polygons|] == polygons;
      case OtherGeometry(_, _) =>
    }
    r := Success(Trim(path));
  }

  /**
   * The first loop of `generateSvg()`: the `<path>` of each feature
   * appended to `svg`, or the first exception.
   */
  method WriteRegions(fmt: Formatter, c: Canvas, features: seq<Feature>, language: string, showTooltips: bool, svg0: string)
    returns (r: Result<string, Exception>)
    ensures r.Failure? <==> Regions(fmt, c, features, language, showTooltips).Failure?
    ensures r.Failure? ==> r.error == DivisionByZero
    ensures r.Success? ==> r.value == svg0 + SerializeAll(Regions(fmt, c, features, language, showTooltips).value)
  {
    var svg := svg0;
    ghost var regions: seq<Node> := [];
    for i := 0 to |features|
      invariant Regions(fmt, c, features[..i], language, showTooltips) == Success(regions)
      invariant svg == svg0 + SerializeAll(regions)
    {
      var feature := features[i];
      var name := ResolveName(feature.properties, language);
      var path := RenderRegionPath(fmt, c, feature.geometry);
      if path.Failure? {
        assert features[..i + 1][..i] == features[..i];
        RegionsPrefixFails(fmt, c, features, language, showTooltips, i + 1);
        return Failure(path.error);
      }
      var region := RegionNode(name, path.value, showTooltips);
      RegionsStep(fmt, c, features, language, showTooltips, i, regions, path.value);
      SerializeSnoc(regions, [region]);
      SerializeAllSingle(region);
      ConcatAssoc(svg0, SerializeAll(regions), Serialize(region));
      svg := svg + Serialize(region);
      regions := regions + [region];
    }
    assert features[..|features|] == features;
    r := Success(svg);
  }

  /**
   * The second loop of `generateSvg()`: `renderMarker($m)` appended for
   * each marker, or the first exception.
   */
  method WriteMarkers(fmt: Formatter, c: Canvas, markers: seq<Marker>, svg0: string) returns (r: Result<string, Exception>)
    ensures r.Failure? <==> MarkerTrees(fmt, c, markers).Failure?
    ensures r.Failure? ==> r.error == DivisionByZero
    ensures r.Success? ==> r.value == svg0 + SerializeAll(MarkerTrees(fmt, c, markers).value)
  {
    var svg := svg0;
    ghost var marks: seq<Node> := [];
    for i := 0 to |markers|
      invariant MarkerTrees(fmt, c, markers[..i]) == Success(marks)
      invariant svg == svg0 + SerializeAll(marks)
    {
      var m := RenderMarker(fmt, c, markers[i]);
      if m.Failure? {
        assert markers[..i + 1][..i] == markers[..i];
        MarkerTreesPrefixFails(fmt, c, markers, i + 1);
        return Failure(m.error);
      }
      ghost var ms := MarkerTree(fmt, c, markers[i]).value;
      MarkerTreesStep(fmt, c, markers, i, marks, ms);
      SerializeSnoc(marks, ms);
      ConcatAssoc(svg0, SerializeAll(marks), m.value);
      svg := svg + m.value;
      marks := marks + ms;
    }
    assert markers[..|markers|] == markers;
    r := Success(svg);
  }

  /**
   * The generator. Only the marker list changes after construction
   * (`generateSvg()` may replace it); the document, the size, the tooltip
   * switch, the language and the bounds are fixed by the constructor.
   */
  class GeoMapSvgGenerator {
    const features: seq<Feature>
    var markers: seq<Marker>
    const width: int
    const height: int
    const showTooltips: bool
    const language: string
    const geoBounds: Option<Bounds>

    /** The bounds are the tightest box around the outer-ring vertices. */
    ghost predicate Valid()
    {
      IsTightBounds(OuterVertices(features), geoBounds)
    }

    /** What `latLngToSvg()` reads from the object. */
    function MapCanvas(): Canvas
    {
      Canvas(geoBounds, width, height)
    }

    /** The constructor once the document has been checked: it stores its arguments and computes the bounds. */
    constructor (features: seq<Feature>, markers: seq<Marker>, width: int, height: int, showTooltips: bool, language: string)
      ensures this.features == features && this.markers == markers
      ensures this.width == width && this.height == height
      ensures this.showTooltips == showTooltips && this.language == language
      ensures Valid()
    {
      this.features := features;
      this.markers := markers;
      this.width := width;
      this.height := height;
      this.showTooltips := showTooltips;
      this.language := language;
      var bounds := CalculateGeoBounds(features);
      this.geoBounds := bounds;
    }

    /**
     * `new GeoMapSvgGenerator($geojson, ...)`: throws "Invalid GeoJSON
     * data." exactly when the document has no `features` member (or it is
     * `null`), and otherwise builds the generator.
     */
    static method Create(doc: GeoDocument, markers: seq<Marker>, width: int, height: int, showTooltips: bool, language: string)
      returns (r: Result<GeoMapSvgGenerator, Exception>)
      ensures r.Failure? <==> doc.features.None?
      ensures r.Failure? ==> r.error == InvalidGeoJson
      ensures r.Success? ==> fresh(r.value) && r.value.Valid()
      ensures r.Success? ==> r.value.features == doc.features.value && r.value.markers == markers
      ensures r.Success? ==> r.value.width == width && r.value.height == height
      ensures r.Success? ==> r.value.showTooltips == showTooltips && r.value.language == language
    {
      if doc.features.None? {
        return Failure(InvalidGeoJson);
      }
      var g := new GeoMapSvgGenerator(doc.features.value, markers, width, height, showTooltips, language);
      r := Success(g);
    }

    /**
     * `new GeoMapSvgGenerator($geojson)` with every other argument left at
     * its default: no markers, 800 x 600, tooltips on, language `uk`.
     */
    static method CreateDefault(doc: GeoDocument) returns (r: Result<GeoMapSvgGenerator, Exception>)
      ensures r.Failure? <==> doc.features.None?
      ensures r.Failure? ==> r.error == InvalidGeoJson
      ensures r.Success? ==> fresh(r.value) && r.value.Valid()
      ensures r.Success? ==> r.value.features == doc.features.value && r.value.markers == []
      ensures r.Success? ==> r.value.width == DefaultWidth && r.value.height == DefaultHeight
      ensures r.Success? ==> r.value.showTooltips == DefaultShowTooltips && r.value.language == DefaultLanguage
    {
      r := Create(doc, [], DefaultWidth, DefaultHeight, DefaultShowTooltips, DefaultLanguage);
    }

    /**
     * `generateSvg($markers)`: a non-empty argument replaces the stored
     * markers first; then the document is written region by region and
     * marker by marker, or the first DivisionByZeroError is thrown.
     */
    method GenerateSvg(fmt: Formatter, newMarkers: seq<Marker>) returns (r: Result<string, Exception>)
      modifies this`markers
      ensures markers == if newMarkers != [] then newMarkers else old(markers)
      ensures r == Output(fmt, MapCanvas(), features, markers, language, showTooltips)
    {
      if newMarkers != [] {
        markers := newMarkers;
      }
      var c := MapCanvas();
      var open := OpenTag("svg", '\'', SvgAttrs(width, height));
      var regions := WriteRegions(fmt, c, features, language, showTooltips, open);
      if regions.Failure? {
        OutputThrows(fmt, c, features, markers, language, showTooltips);
        return Failure(regions.error);
      }
      var svg := WriteMarkers(fmt, c, markers, regions.value);
      if svg.Failure? {
        OutputThrows(fmt, c, features, markers, language, showTooltips);
        return Failure(svg.error);
      }
      OutputWritten(fmt, c, features, markers, language, showTooltips,
        Regions(fmt, c, features, language, showTooltips).value, MarkerTrees(fmt, c, markers).value);
      r := Success(svg.value + CloseTag("svg"));
    }
  }
}
