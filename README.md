# geomap: a verified model of `GeoMapSvgGenerator`

This project models `Flowaxy\GeoMapSvgGenerator` from `src/GeoMapSvgGenerator.php`.
That class turns a decoded GeoJSON document (RFC 7946) and a list of map markers into one SVG document:

- The constructor rejects a document without `features`. It then stores its arguments and computes the bounding box of every outer-ring vertex (`calculateGeoBounds()`).
- `latLngToSvg()` stretches that box linearly onto a `width` x `height` canvas, with latitude pointing up.
- `renderPolygon()` writes a ring-set as an SVG path: `M x,y x,y ... Z` per ring, then `trim()`.
- `renderMarker()` draws a marker in one of four modes: icon, count badge, label or dot. Its class list is `marker`, the sanitized type and the extra class, without repeats. Its tooltip is escaped.
- `generateSvg()` may replace the markers. It then writes `<svg viewBox='0 0 w h' ...>`, one `<path class='region'>` per feature (with an optional `<title>` tooltip), every marker, and `</svg>`.

The model keeps the source's form:

- `GeoMapSvgGenerator` is a Dafny `class`. It has the source's `markers`, `width`, `height`, `showTooltips`, `language` and `geoBounds` fields. The source stores the whole decoded `$geojson` array (lines 21 and 91), but the class keeps only its `features` list, the one member the methods read. `markers` is the only field `GenerateSvg` changes.
- `calculateGeoBounds()`, `renderPolygon()` and the two loops of `generateSvg()` are methods with loops. Each is proved against a specification function: `IsTightBounds`, `PolygonPath`, `Regions`, `MarkerTrees` or `Output`.
- The pure parts are functions: name resolution, the projection, marker rendering and PHP's `trim`, `implode`, `array_unique`, `htmlspecialchars` and `preg_replace`.
- The strings the source interpolates are described as `Markup` trees (elements, attributes, text). Their serialization reproduces the source's tags, attribute order and quote characters.

Modules:

- `Wrappers`: Option and Result.
- `Errors`: the two exceptions.
- `PhpStrings`: `trim`, `implode`, `explode` and integer-to-string.
- `PhpArrays`: `array_unique`.
- `Html`: `htmlspecialchars`.
- `GeoJson`: the document.
- `GeoBounds`: `calculateGeoBounds`.
- `Projection`: `latLngToSvg`.
- `Markup`: trees and their serialization.
- `PathBuilder`: `renderPolygon`.
- `Markers`: `renderMarker`.
- `Generator`: the class and `generateSvg`.

How the model reads PHP:

- A missing key and a `null` value are both `None`, as `isset` and `??` treat them.
- `empty()` holds for `None`, `""` and `"0"`.
- A division by zero throws `DivisionByZeroError`, as in PHP 8. It becomes `Failure(DivisionByZero)` and propagates to the caller.

## Model

| member | source | states |
|---|---|---|
| PhpStrings.IsEmpty | src/GeoMapSvgGenerator.php:181-193 | PHP `empty()` on an optional string field: a missing key, `null`, `""` and `"0"` are empty (used at lines 181, 182, 187, 193 and 212) |
| PhpStrings.TrimLeft | src/GeoMapSvgGenerator.php:165 | the result is a suffix of the input; everything dropped is a trim character; the result does not start with one |
| PhpStrings.TrimRight | src/GeoMapSvgGenerator.php:165 | the result is a prefix of the input; everything dropped is a trim character; the result does not end with one |
| PhpStrings.Trim | src/GeoMapSvgGenerator.php:165 | `trim()` leaves no trim character at either end |
| PhpStrings.TrimUntrimmed | src/GeoMapSvgGenerator.php:165 | `trim()` leaves unchanged a string with no trim character at its ends |
| PhpStrings.Implode | src/GeoMapSvgGenerator.php:183 | `implode($glue, $pieces)`: the pieces in order with the glue between neighbours; `""` for no piece |
| PhpStrings.ImplodeEnds | src/GeoMapSvgGenerator.php:183 | `implode` starts with the first piece and ends with the last |
| PhpStrings.ImplodeConcat | src/GeoMapSvgGenerator.php:183 | imploding two non-empty lists equals imploding each and joining the two with the glue |
| PhpStrings.SpacedConcat | src/GeoMapSvgGenerator.php:156-164 | appending "piece + space" over two lists equals doing it over each list in turn |
| PhpStrings.SpacedIsImplodeThenSpace | src/GeoMapSvgGenerator.php:156-165 | text built as "piece + space" per piece equals `implode(' ', ...)` followed by one space |
| PhpStrings.TrimSpaced | src/GeoMapSvgGenerator.php:165 | when the first and last pieces have no trim character at their outer ends, `trim()` of the space-terminated text equals `implode(' ', pieces)` |
| PhpStrings.Explode | src/GeoMapSvgGenerator.php:183 | `explode` returns at least one piece, and no piece holds the delimiter |
| PhpStrings.ExplodeFreePrefix | src/GeoMapSvgGenerator.php:183 | a delimiter-free prefix joins the first piece of `explode` |
| PhpStrings.ExplodeImplode | src/GeoMapSvgGenerator.php:183 | `explode` inverts `implode` on delimiter-free pieces |
| PhpStrings.ImplodeExplode | src/GeoMapSvgGenerator.php:183 | `implode` inverts `explode` on every string |
| PhpStrings.DigitChar | src/GeoMapSvgGenerator.php:192 | a digit below ten is written as a decimal digit character |
| PhpStrings.NatToString | src/GeoMapSvgGenerator.php:192 | a natural number is written as non-empty decimal digits, with a leading `0` only for zero |
| PhpStrings.IntToString | src/GeoMapSvgGenerator.php:192 | `(string)$count` is non-empty digits with an optional leading minus sign |
| PhpStrings.NatToStringValue | src/GeoMapSvgGenerator.php:192 | the digits written for a natural number read back as that number |
| PhpStrings.IntToStringRoundTrip | src/GeoMapSvgGenerator.php:192 | the text written for an integer count reads back as that count |
| PhpArrays.FirstIndex | src/GeoMapSvgGenerator.php:183 | the index of a value's first occurrence holds that value, and no earlier index does |
| PhpArrays.FirstIndexInPrefix | src/GeoMapSvgGenerator.php:183 | a value's first occurrence inside a prefix is its first occurrence in the whole list |
| PhpArrays.ArrayUnique | src/GeoMapSvgGenerator.php:183 | `array_unique` has no repeats and the same members as its input; it keeps first occurrences in input order, so the first element stays first |
| Html.EscapeChar | src/GeoMapSvgGenerator.php:184 | the escape of one character holds no markup character |
| Html.HtmlSpecialChars | src/GeoMapSvgGenerator.php:184 | `htmlspecialchars` output holds none of `< > " '` and is at least as long as its input |
| Html.UnescapeEscapeChar | src/GeoMapSvgGenerator.php:184 | decoding an escaped character followed by any text gives back the character, then the decoded text |
| Html.UnescapeEscape | src/GeoMapSvgGenerator.php:184 | decoding the entities of `htmlspecialchars(s)` gives back `s`, so escaping loses nothing |
| Html.EscapeConcat | src/GeoMapSvgGenerator.php:184 | escaping distributes over concatenation |
| Html.EscapeIdentityIff | src/GeoMapSvgGenerator.php:184 | escaping changes nothing exactly when the text holds none of `& < > " '` |
| GeoJson.RingSets | src/GeoMapSvgGenerator.php:118 | `$type === 'Polygon' ? [$coords] : $coords`: a Polygon's one ring-set, or the list of ring-sets of any other type |
| GeoJson.OuterRing | src/GeoMapSvgGenerator.php:120 | `$poly[0]`: a ring-set's outer ring, no vertex for an empty ring-set |
| GeoJson.OuterVertices | src/GeoMapSvgGenerator.php:115-120 | every vertex the loops of `calculateGeoBounds()` visit, in visiting order |
| GeoJson.OuterRingVerticesMembership | src/GeoMapSvgGenerator.php:119-120 | a position is collected from a list of ring-sets iff it lies on the outer ring `$poly[0]` of one of them |
| GeoJson.OuterVerticesInclude | src/GeoMapSvgGenerator.php:115-120 | every outer-ring vertex of every feature is collected |
| GeoJson.OuterVerticesSource | src/GeoMapSvgGenerator.php:115-120 | every collected vertex comes from some feature's outer rings |
| GeoJson.OuterVerticesMembership | src/GeoMapSvgGenerator.php:115-125 | a position is collected iff it lies on the outer ring of some ring-set of some feature; a ring-set is `[$coords]` for a Polygon and `$coords` otherwise |
| GeoJson.SameOuterRingVertices | src/GeoMapSvgGenerator.php:119-120 | ring-set lists that agree on every outer ring yield the same vertices |
| GeoJson.HolesDoNotContribute | src/GeoMapSvgGenerator.php:115-127 | feature lists that differ only in their holes yield the same vertices |
| GeoBounds.TightBoundsUnique | src/GeoMapSvgGenerator.php:111-129 | at most one box is the tightest box around a list of vertices, so the result of `calculateGeoBounds()` is determined |
| GeoBounds.TightBoundsOrdered | src/GeoMapSvgGenerator.php:121-124 | a tightest box has minLat <= maxLat and minLng <= maxLng |
| GeoBounds.WidenKeepsTight | src/GeoMapSvgGenerator.php:121-124 | one `min`/`max` step turns the tightest box of a list into the tightest box of the list plus the new vertex |
| GeoBounds.WidenByRing | src/GeoMapSvgGenerator.php:120-125 | the inner loop over an outer ring keeps the accumulators the tightest box of every vertex seen so far |
| GeoBounds.CalculateGeoBounds | src/GeoMapSvgGenerator.php:111-129 | the result is the tightest box around all outer-ring vertices, or no box (the infinite seeds) when there is no vertex |
| GeoBounds.HolesNeverAffectBounds | src/GeoMapSvgGenerator.php:115-127 | documents that differ only in their holes get the same bounds |
| Projection.LatLngToSvg | src/GeoMapSvgGenerator.php:139-145 | fails with DivisionByZeroError exactly on a box spanning no latitude or no longitude; gives NAN twice on the infinite seeds; gives two numbers otherwise |
| Projection.ProjectCorners | src/GeoMapSvgGenerator.php:142-143 | the south-west corner maps to (0, height) and the north-east corner to (width, 0) |
| Projection.ProjectWithinCanvas | src/GeoMapSvgGenerator.php:142-143 | a point inside the box lands inside the canvas |
| Projection.ProjectOrder | src/GeoMapSvgGenerator.php:142-143 | x grows with longitude and y shrinks as latitude grows, both as an iff |
| Projection.ProjectThenInvert | src/GeoMapSvgGenerator.php:142-143 | the inverse map recovers `[lng, lat]` from the projected point |
| Projection.InvertThenProject | src/GeoMapSvgGenerator.php:142-143 | projecting the inverse of a canvas point gives back that point, so the projection is a bijection |
| Projection.OuterVerticesWithinCanvas | src/GeoMapSvgGenerator.php:102-143 | with the bounds the constructor computes, every outer-ring vertex is drawn inside the canvas |
| Projection.CoordString | src/GeoMapSvgGenerator.php:161 | with a formatter that writes plain numerals, every interpolated coordinate, NAN included, is a numeral |
| Projection.NumeralIsPlain | src/GeoMapSvgGenerator.php:161 | a numeral holds no space, comma or markup character and no trim character at its ends |
| Markup.SerializeAllConcat | src/GeoMapSvgGenerator.php:239-241 | serializing a list of trees distributes over concatenation, as appending markup does |
| Markup.TagCount | src/GeoMapSvgGenerator.php:189-197 | a well-formed tree serializes with exactly two `<` per element, so no data opens a tag |
| Markup.TagsCount | src/GeoMapSvgGenerator.php:216-243 | the same count holds for a list of well-formed trees |
| PathBuilder.PolygonPath | src/GeoMapSvgGenerator.php:154-166 | the path `renderPolygon()` returns: `M`, the ring's `x,y` tokens and `Z` for each ring, joined by single spaces |
| PathBuilder.PointToken | src/GeoMapSvgGenerator.php:161 | a vertex is written as `"$x,$y"`, a token holding a comma |
| PathBuilder.VertexTokens | src/GeoMapSvgGenerator.php:159-162 | one token per vertex of the ring |
| PathBuilder.RenderRing | src/GeoMapSvgGenerator.php:158-163 | the inner loop appends `M `, one `"$x,$y "` per vertex and `Z `; it throws exactly when the box is degenerate and the ring has a vertex |
| PathBuilder.RenderPolygon | src/GeoMapSvgGenerator.php:154-166 | `renderPolygon()` throws exactly when some ring cannot be projected, and otherwise returns the trimmed, space-joined token list `PolygonPath` |
| PathBuilder.PolygonTokensEnds | src/GeoMapSvgGenerator.php:158-163 | a non-empty polygon's tokens start with `M` and end with `Z` |
| PathBuilder.VertexTokensArePlain | src/GeoMapSvgGenerator.php:161 | every vertex token is free of spaces and markup |
| PathBuilder.VertexTokenSplit | src/GeoMapSvgGenerator.php:161 | splitting a vertex token at its comma gives back the x and y numerals |
| PathBuilder.PolygonTokensArePlain | src/GeoMapSvgGenerator.php:158-163 | every path token is non-empty and free of spaces and markup |
| PathBuilder.PolygonPathTokens | src/GeoMapSvgGenerator.php:154-166 | splitting the path at spaces gives back exactly its tokens, so the path parses into `M`, vertices and `Z` |
| PathBuilder.RingTokensCount | src/GeoMapSvgGenerator.php:158-163 | one ring contributes one `M`, one `Z` and its vertices |
| PathBuilder.PolygonTokensCount | src/GeoMapSvgGenerator.php:157-164 | a path has one `M` and one `Z` per ring, and two tokens per ring plus one per vertex |
| PathBuilder.PolygonTokensConcat | src/GeoMapSvgGenerator.php:157-164 | the tokens of two ring lists together are the tokens of each in turn |
| PathBuilder.PolygonPaths | src/GeoMapSvgGenerator.php:230-231 | one path per ring-set of a MultiPolygon |
| PathBuilder.PolygonPathsAt | src/GeoMapSvgGenerator.php:230-231 | the j-th MultiPolygon path is `renderPolygon()` of the j-th ring-set |
| PathBuilder.PolygonPathsJoin | src/GeoMapSvgGenerator.php:229-233 | space-joining the paths of non-empty ring-sets equals the path of all their rings as one polygon |
| PathBuilder.MultiPolygonAsOnePolygon | src/GeoMapSvgGenerator.php:229-236 | the trimmed MultiPolygon path equals the path of its rings drawn as one Polygon |
| PathBuilder.PathEnds | src/GeoMapSvgGenerator.php:165 | a non-empty polygon's path starts with `M` and ends with `Z` |
| PathBuilder.EmptyRingSetDoubleSpace | src/GeoMapSvgGenerator.php:230-231 | an empty ring-set between two others leaves two spaces in the MultiPolygon path |
| Markers.ClassCandidates | src/GeoMapSvgGenerator.php:180-182 | `$classes`: `marker` first, then the sanitized type when the type is not empty, then the extra class last when it is not empty |
| Markers.ClassAttr | src/GeoMapSvgGenerator.php:183 | `implode(' ', array_unique($classes))`, which always starts with `marker` |
| Markers.Title | src/GeoMapSvgGenerator.php:184 | `htmlspecialchars($m['name'] ?? '')`: free of markup, and it decodes back to the name or `''` |
| Markers.CoordPlus | src/GeoMapSvgGenerator.php:192 | `$y + 3`: the coordinate plus the offset, NAN staying NAN |
| Markers.MarkerNodes | src/GeoMapSvgGenerator.php:186-198 | the per-mode markup: the centred `<text>` with its `<title>` for an icon or a label, the `<circle r="7">` and the count `<text>` for a count, the `<circle r="6">` with `data-name` for the dot, attributes in the source's order and quoted with `"` |
| Markers.StripToClassChars | src/GeoMapSvgGenerator.php:181 | the sanitized type holds only `[a-zA-Z0-9_-]` and is no longer than the type |
| Markers.StripConcat | src/GeoMapSvgGenerator.php:181 | sanitizing distributes over concatenation |
| Markers.StripIdentityIff | src/GeoMapSvgGenerator.php:181 | sanitizing changes nothing exactly when every character is allowed |
| Markers.StripIdempotent | src/GeoMapSvgGenerator.php:181 | sanitizing twice equals sanitizing once |
| Markers.ClassListShape | src/GeoMapSvgGenerator.php:180-183 | the class list starts with `marker`, has no repeats, and holds exactly the candidate classes |
| Markers.ClassAttrSplits | src/GeoMapSvgGenerator.php:183 | when the extra class has no space, splitting the class attribute at spaces gives back the de-duplicated list |
| Markers.ClassCandidatesPlain | src/GeoMapSvgGenerator.php:180-182 | every candidate class is free of markup iff the extra class is empty or free of markup |
| Markers.ClassAttrPlain | src/GeoMapSvgGenerator.php:180-183 | the class attribute is free of markup iff the extra class is empty or free of markup |
| Markers.ModeOf | src/GeoMapSvgGenerator.php:187-198 | icon mode iff the icon is non-empty; count mode iff no icon and `count` is set, zero included; label mode iff neither and the label is non-empty; dot mode otherwise |
| Markers.MarkerTree | src/GeoMapSvgGenerator.php:175-201 | the marker's elements: none iff `lat` or `lng` is missing; DivisionByZeroError iff both are set and the box is degenerate |
| Markers.RenderMarker | src/GeoMapSvgGenerator.php:175-201 | renders as `''` iff `lat` or `lng` is missing; throws DivisionByZeroError iff both are set and the box is degenerate; otherwise the text of the marker's elements |
| Markers.MarkerDrawing | src/GeoMapSvgGenerator.php:186-198 | per mode: a `<text>` centred with `text-anchor="middle"` and `dominant-baseline="central"`, whose content decodes to the icon (class `... icon`) or the label; a `<circle r="7">` followed by the count `<text>` 3 units lower, whose value `Markers.CountBadgeShowsCount` reads back; a `<circle r="6">` for the dot; each at the projected x and y |
| Markers.MarkerElementCount | src/GeoMapSvgGenerator.php:186-198 | element count per mode: icon and label 2, count badge 3, dot 1 |
| Markers.CentredTextWellFormed | src/GeoMapSvgGenerator.php:189 | the icon and label `<text>` is well-formed iff its class is free of markup |
| Markers.CountCircleWellFormed | src/GeoMapSvgGenerator.php:191 | the count `<circle>` is well-formed iff its class is free of markup |
| Markers.CountBadgeWellFormed | src/GeoMapSvgGenerator.php:192 | the count label `<text>` is always well-formed |
| Markers.DotWellFormed | src/GeoMapSvgGenerator.php:197 | the dot `<circle>` is well-formed iff its class is free of markup |
| Markers.MarkerWellFormedIff | src/GeoMapSvgGenerator.php:175-201 | a marker's markup is well-formed iff its extra class is empty or free of markup; the type, title, icon and label never break it |
| Markers.MarkerTagCount | src/GeoMapSvgGenerator.php:185-198 | with a plain extra class, the marker text holds exactly two `<` per element of its mode |
| Markers.CountBadgeShowsCount | src/GeoMapSvgGenerator.php:190-192 | the count badge sits 3 units below the point and its text reads back as the count |
| Markers.MarkerNameShown | src/GeoMapSvgGenerator.php:184-197 | the escaped name is the `<title>` in icon, count and label mode and the `data-name` in dot mode, and it decodes to `$m['name'] ?? ''` |
| Generator.ResolveName | src/GeoMapSvgGenerator.php:222-224 | the region name is one of the feature's own property values or `—` |
| Generator.ResolveNamePriority | src/GeoMapSvgGenerator.php:222-224 | `name:<language>` wins when set; otherwise `name`; otherwise `—` |
| Generator.RegionNode | src/GeoMapSvgGenerator.php:235-236 | `<path class='region' d='...' fill-rule='evenodd'>`, holding `<title>` with the escaped name when tooltips are on |
| Generator.RegionPath | src/GeoMapSvgGenerator.php:226-233 | the path of a feature fails only with DivisionByZeroError |
| Generator.RegionPathFailsIff | src/GeoMapSvgGenerator.php:226-233 | it fails exactly when the box is degenerate and the geometry draws at least one vertex |
| Generator.PolygonRegionPath | src/GeoMapSvgGenerator.php:227-228 | a Polygon's path is `renderPolygon()` of its coordinates |
| Generator.MultiPolygonRegionPath | src/GeoMapSvgGenerator.php:229-233 | a MultiPolygon of non-empty ring-sets is drawn like one Polygon of all its rings |
| Generator.RegionPathPlain | src/GeoMapSvgGenerator.php:226-236 | a region's `d` attribute is free of markup |
| Generator.RegionTooltip | src/GeoMapSvgGenerator.php:235-236 | the `<path>` has a `<title>` child iff tooltips are on; the title holds the escaped name and decodes to the name |
| Generator.RegionNodeWellFormed | src/GeoMapSvgGenerator.php:235-236 | the `<path>` element is well-formed for any name, and has one or two elements depending on tooltips |
| Generator.Regions | src/GeoMapSvgGenerator.php:218-237 | one region per feature, or DivisionByZeroError |
| Generator.RegionsFailIff | src/GeoMapSvgGenerator.php:218-237 | the feature loop throws iff the box is degenerate and some feature draws a vertex |
| Generator.RegionsWellFormed | src/GeoMapSvgGenerator.php:218-237 | all regions are well-formed, with one or two elements per feature |
| Generator.MarkerTrees | src/GeoMapSvgGenerator.php:239-241 | the markup of all markers, or DivisionByZeroError |
| Generator.MarkerTreesFailIff | src/GeoMapSvgGenerator.php:239-241 | the marker loop throws iff the box is degenerate and some marker has both coordinates |
| Generator.MarkerTreesWellFormed | src/GeoMapSvgGenerator.php:239-241 | with plain extra classes, all marker markup is well-formed, with each mode's element count |
| Generator.ViewBox | src/GeoMapSvgGenerator.php:216 | the `viewBox` value `0 0 {width} {height}` |
| Generator.ViewBoxFields | src/GeoMapSvgGenerator.php:216 | the `viewBox` value splits at its spaces into `0`, `0`, the width and the height |
| Generator.SvgDocument | src/GeoMapSvgGenerator.php:216-243 | the `<svg viewBox='...' xmlns='http://www.w3.org/2000/svg'>` element around the regions and then the markers |
| Generator.Output | src/GeoMapSvgGenerator.php:216-244 | what `generateSvg()` returns: the serialization of the `<svg>` document, or the DivisionByZeroError of the first region or marker that throws |
| Generator.SvgAttrsWellFormed | src/GeoMapSvgGenerator.php:216 | the `<svg>` attributes `viewBox` and `xmlns` are well-formed |
| Generator.OutputWritten | src/GeoMapSvgGenerator.php:216-244 | the document is the `<svg ...>` header, then every region, then every marker, then `</svg>` |
| Generator.OutputFailsIff | src/GeoMapSvgGenerator.php:210-245 | `generateSvg()` throws iff the box is degenerate and some feature draws or some marker is placed |
| Generator.SvgDocumentTags | src/GeoMapSvgGenerator.php:216-243 | an `<svg>` document of well-formed children has two `<` per element |
| Generator.OutputTagCount | src/GeoMapSvgGenerator.php:210-245 | with plain extra classes, the output has exactly 2 x (1 + regions' elements + markers' elements) `<`, so no name, title, icon, label or type injects a tag |
| Generator.RenderRegionPath | src/GeoMapSvgGenerator.php:226-234 | the type switch and the MultiPolygon loop compute `RegionPath` |
| Generator.WriteRegions | src/GeoMapSvgGenerator.php:218-237 | the feature loop appends the serialization of `Regions`, or throws exactly when `Regions` fails |
| Generator.WriteMarkers | src/GeoMapSvgGenerator.php:239-241 | the marker loop appends the serialization of `MarkerTrees`, or throws exactly when `MarkerTrees` fails |
| Generator.GeoMapSvgGenerator.constructor | src/GeoMapSvgGenerator.php:97-102 | stores the arguments and sets `geoBounds` to the tightest box of the outer-ring vertices |
| Generator.GeoMapSvgGenerator.Create | src/GeoMapSvgGenerator.php:83-103 | throws "Invalid GeoJSON data." exactly when `features` is missing or null; otherwise builds a generator holding the document's features and the arguments |
| Generator.GeoMapSvgGenerator.CreateDefault | src/GeoMapSvgGenerator.php:83-103 | with the remaining arguments at their defaults: no markers, 800 x 600, tooltips on, language `uk` |
| Generator.GeoMapSvgGenerator.GenerateSvg | src/GeoMapSvgGenerator.php:210-245 | a non-empty argument replaces the markers and an empty one keeps them; the result is `Output` of the stored state |

## Left out

- Reading a file path and `json_decode` (line 91) are not modelled. The constructor takes an already-decoded document (`GeoDocument`), and a `features` that is missing or null is `None`.
- Geometry types: only `Polygon` and `MultiPolygon` are drawn. Any other type carries its coordinates as a list of ring-sets (`OtherGeometry`), the way `calculateGeoBounds()` reads them. Coordinates of any other shape (a LineString's positions, say) are not modelled.
- PHP warnings are not modelled. An empty ring-set raises "Undefined array key 0" at `$poly[0]` (line 120), and `foreach` over the resulting `null` warns again. The model reads such a ring-set as having no outer ring (`OuterRing([]) == []`), which gives the same bounds. A geometry without `coordinates` is not modelled: every `Geometry` carries its coordinates.
- Positions: only `[lng, lat]` is kept. A third member (an altitude) is ignored, as the list destructuring at lines 120 and 159 ignores it.
- Property values are strings or `null`. Non-string JSON values in `properties` and in the marker text fields `type`, `class`, `icon`, `label` and `name` are not modelled. `lat` and `lng` are reals, and `count` is an integer.
- Floating point: coordinates are exact reals. IEEE rounding, overflow and infinities are not modelled. The only non-finite value is NAN, which the projection yields while the bounds still hold their infinite seeds (no outer-ring vertex at all).
- Float-to-string conversion is a parameter (`Formatter`). Lemmas about tokens assume a formatter that writes plain numerals; PHP's exact float formatting is not modelled.
- A box spanning no longitude or no latitude: PHP 8's `/` throws `DivisionByZeroError` there, and the model returns `Failure(DivisionByZero)` from every operation that projects a point. Under PHP 7 the same division gave INF or NAN with a warning. The source's `string|array` parameter type (line 84) needs PHP 8, where float `/` by zero throws.
- `htmlspecialchars` is modelled as the character escape of `& < > " '` under PHP 8.1+ default flags. Charset validation and double-encoding options are left out.
- `preg_replace('/[^a-z0-9\-_]/i', '', ...)` is modelled as a per-character filter, not as a regular-expression engine.
- `latLngToSvg()` is public on the class. It is modelled as the function `Projection.LatLngToSvg` over a `Canvas` (the object's `geoBounds`, `width` and `height`). `GeoMapSvgGenerator.MapCanvas` builds that canvas from the object.
- The output text is described by `Markup` trees. The model proves that the text the methods build equals the serialization of those trees. XML well-formedness beyond "no data holds `<`, `>`, `"` or `'`" (entities, namespaces) is not modelled.
- Loop structure: each nested loop sits in its own method, called by the outer loop. The inner loop of `renderPolygon()` is `RenderRing`, and the inner loop of `calculateGeoBounds()` is `WidenByRing`. The type switch of `generateSvg()` is `RenderRegionPath`, and its two loops are `WriteRegions` and `WriteMarkers`. The order of the computation is unchanged.
- Generator.OutputTagCount, Markers.MarkerTagCount, Generator.MarkerTreesWellFormed: the tag-count and well-formedness results assume the extra class (`$m['class']`) is empty or free of markup. The source inserts that class unescaped, so a class holding `"` or `<` does break the markup; `Markers.MarkerWellFormedIff` states this as an iff.
