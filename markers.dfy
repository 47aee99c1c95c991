/**
 * `renderMarker()`: one marker as SVG. A marker without both coordinates
 * renders as nothing; otherwise its projected point is drawn in one of four
 * modes, chosen in this order: an icon, a count badge, a text label, or a
 * plain dot. Its class list is `marker`, the sanitized type and the extra
 * class, without repeats.
 */
module Markers {
  import opened Wrappers
  import opened Errors
  import opened Projection
  import opened PhpStrings
  import opened PhpArrays
  import opened Html
  import opened Markup

  /**
   * A marker as an associative array. Every key may be missing (None);
   * `count` is an integer when present.
   */
  datatype Marker = Marker(
    lat: Option<real>,
    lng: Option<real>,
    markerType: Option<string>,
    extraClass: Option<string>,
    icon: Option<string>,
    count: Option<int>,
    labelText: Option<string>,
    name: Option<string>)

  /** The characters `[a-z0-9\-_]` matches case-insensitively. */
  predicate IsClassChar(ch: char)
  {
    ('a' <= ch <= 'z') || ('A' <= ch <= 'Z') || ('0' <= ch <= '9') || ch == '-' || ch == '_'
  }

  predicate AllClassChars(s: string)
  {
    forall i :: 0 <= i < |s| ==> IsClassChar(s[i])
  }

  /** `preg_replace('/[^a-z0-9\-_]/i', '', $s)`: every other character removed. */
  function StripToClassChars(s: string): (r: string)
    ensures AllClassChars(r)
    ensures |r| <= |s|
    decreases |s|
  {
    if s == [] then ""
    else if IsClassChar(s[0]) then [s[0]] + StripToClassChars(s[1..])
    else StripToClassChars(s[1..])
  }

  lemma {:induction false} StripConcat(a: string, b: string)
    ensures StripToClassChars(a + b) == StripToClassChars(a) + StripToClassChars(b)
    decreases |a|
  {
    if a == [] {
      assert a + b == b;
    } else {
      assert (a + b)[1..] == a[1..] + b;
      StripConcat(a[1..], b);
    }
  }

  /** Sanitizing leaves a string unchanged exactly when it holds only class characters. */
  lemma {:induction false} StripIdentityIff(s: string)
    ensures StripToClassChars(s) == s <==> AllClassChars(s)
    decreases |s|
  {
    if s != [] {
      StripIdentityIff(s[1..]);
      if IsClassChar(s[0]) {
        if StripToClassChars(s[1..]) == s[1..] {
          assert s == [s[0]] + s[1..];
        }
        if StripToClassChars(s) == s {
          assert StripToClassChars(s[1..]) == s[1..];
        }
      } else {
        assert |StripToClassChars(s)| < |s|;
      }
    }
  }

  /** Sanitizing twice is sanitizing once. */
  lemma StripIdempotent(s: string)
    ensures StripToClassChars(StripToClassChars(s)) == StripToClassChars(s)
  {
    StripIdentityIff(StripToClassChars(s));
  }

  /** `$classes`: `marker`, then the sanitized type when the type is not empty, then the extra class when it is not empty. */
  function ClassCandidates(m: Marker): (cands: seq<string>)
    ensures 1 <= |cands| <= 3 && cands[0] == "marker"
    ensures m.extraClass.Some? && !IsEmpty(m.extraClass) ==> Last(cands) == m.extraClass.value
  {
    ["marker"]
      + (if !IsEmpty(m.markerType) then [StripToClassChars(m.markerType.value)] else [])
      + (if !IsEmpty(m.extraClass) then [m.extraClass.value] else [])
  }

  /** `implode(' ', array_unique($classes))`. */
  function ClassAttr(m: Marker): (cls: string)
    ensures |cls| >= 6 && cls[..6] == "marker"
  {
    var list := ArrayUnique(ClassCandidates(m));
    ImplodeEnds(" ", list);
    Implode(" ", list)
  }

  /** The class list names `marker` first, then each candidate once, in the order of first occurrence. */
  lemma ClassListShape(m: Marker)
    ensures var list := ArrayUnique(ClassCandidates(m));
      list != [] && list[0] == "marker" && NoDuplicates(list) &&
      (forall cls :: cls in list <==> cls in ClassCandidates(m))
  {
  }

  /** Which of the four drawings a marker gets. */
  datatype Mode = IconMode | CountMode | LabelMode | DotMode

  /** An icon wins over a count, a count over a label; a dot is the fallback. */
  function ModeOf(m: Marker): (mode: Mode)
    ensures mode == IconMode <==> !IsEmpty(m.icon)
    ensures mode == CountMode <==> IsEmpty(m.icon) && m.count.Some?
    ensures mode == LabelMode <==> IsEmpty(m.icon) && m.count.None? && !IsEmpty(m.labelText)
    ensures mode == DotMode <==> IsEmpty(m.icon) && m.count.None? && IsEmpty(m.labelText)
  {
    if !IsEmpty(m.icon) then IconMode
    else if m.count.Some? then CountMode
    else if !IsEmpty(m.labelText) then LabelMode
    else DotMode
  }

  /** `htmlspecialchars($m['name'] ?? '')`. */
  function Title(m: Marker): (t: string)
    ensures NoMarkup(t) && Unescape(t) == m.name.GetOr("")
  {
    UnescapeEscape(m.name.GetOr(""));
    HtmlSpecialChars(m.name.GetOr(""))
  }

  /** `$y + 3`: NAN stays NAN. */
  function CoordPlus(c: Coord, d: real): (r: Coord)
    ensures r.NaN? <==> c.NaN?
    ensures r.Num? ==> r.value == c.value + d
  {
    if c.NaN? then NaN else Num(c.value + d)
  }

  /** `<title>$title</title>`. */
  function TitleNode(title: string): Node
  {
    Element("title", '"', [], [Text(title)])
  }

  /** The centred `<text>` of the icon and label modes: its content, then its tooltip. */
  function CentredText(x: string, y: string, cls: string, content: string, title: string): Node
  {
    Element("text", '"',
      [Attr("x", x), Attr("y", y), Attr("class", cls), Attr("text-anchor", "middle"), Attr("dominant-baseline", "central")],
      [Text(content), TitleNode(title)])
  }

  /** The circle of the count mode, `r="7"`, with its tooltip. */
  function CountCircle(x: string, y: string, cls: string, title: string): Node
  {
    Element("circle", '"', [Attr("cx", x), Attr("cy", y), Attr("r", "7"), Attr("class", cls)], [TitleNode(title)])
  }

  /** The number under the count circle. */
  function CountBadge(x: string, y: string, count: string): Node
  {
    Element("text", '"', [Attr("x", x), Attr("y", y), Attr("class", "label")], [Text(count)])
  }

  /** The plain dot, `r="6"`, which carries the name in `data-name` instead of a tooltip. */
  function Dot(x: string, y: string, cls: string, title: string): Node
  {
    Element("circle", '"', [Attr("class", cls), Attr("cx", x), Attr("cy", y), Attr("r", "6"), Attr("data-name", title)], [])
  }

  /** The value of the `class` attribute: the class list, followed by ` icon` in the icon mode. */
  function ClassValue(m: Marker): string
  {
    if ModeOf(m) == IconMode then ClassAttr(m) + " icon" else ClassAttr(m)
  }

  /**
   * The markup `renderMarker()` interpolates for a marker placed at `p`:
   * which elements, with which attributes in which order (all quoted with
   * `"`), around which text.
   */
  function MarkerNodes(fmt: Formatter, p: Point, m: Marker): seq<Node>
  {
    var x, y := CoordString(fmt, p.x), CoordString(fmt, p.y);
    var cls, title := ClassValue(m), Title(m);
    match ModeOf(m)
    case IconMode => [CentredText(x, y, cls, HtmlSpecialChars(m.icon.value), title)]
    case CountMode =>
      [CountCircle(x, y, cls, title),
       CountBadge(x, CoordString(fmt, CoordPlus(p.y, 3.0)), HtmlSpecialChars(IntToString(m.count.value)))]
    case LabelMode => [CentredText(x, y, cls, HtmlSpecialChars(m.labelText.value), title)]
    case DotMode => [Dot(x, y, cls, title)]
  }

  /**
   * What `renderMarker($m)` draws: no element for a marker without both
   * coordinates, the projection's exception when it throws, and otherwise
   * the elements of the marker's mode at its projected point.
   */
  function MarkerTree(fmt: Formatter, c: Canvas, m: Marker): (r: Result<seq<Node>, Exception>)
    ensures r.Failure? <==> m.lat.Some? && m.lng.Some? && Degenerate(c)
    ensures r.Failure? ==> r.error == DivisionByZero
    ensures r == Success([]) <==> m.lat.None? || m.lng.None?
  {
    if m.lat.None? || m.lng.None? then Success([])
    else
      match LatLngToSvg(c, m.lat.value, m.lng.value)
      case Failure(e) => Failure(e)
      case Success(p) => Success(MarkerNodes(fmt, p, m))
  }

  /**
   * `renderMarker($m)`: the text of the marker's elements, so `''` exactly
   * for a marker without both coordinates.
   */
  function RenderMarker(fmt: Formatter, c: Canvas, m: Marker): (r: Result<string, Exception>)
    ensures r.Failure? <==> m.lat.Some? && m.lng.Some? && Degenerate(c)
    ensures r.Failure? ==> r.error == DivisionByZero
    ensures r == Success("") <==> m.lat.None? || m.lng.None?
  {
    match MarkerTree(fmt, c, m)
    case Failure(e) => Failure(e)
    case Success(ns) =>
      assert ns != [] ==> ns[0].Element? && Serialize(ns[0])[0] == '<';
      Success(SerializeAll(ns))
  }

  /** The point a placed marker is drawn at. */
  function Placement(c: Canvas, m: Marker): Point
    requires m.lat.Some? && m.lng.Some? && !Degenerate(c)
  {
    LatLngToSvg(c, m.lat.value, m.lng.value).value
  }

  /**
   * What each mode draws at the marker's point: a centred `<text>` showing
   * the icon or the label, classed `... icon` for the icon; a `<circle>` of
   * radius 7 followed by the count text 3 units lower (whose value
   * `CountBadgeShowsCount` reads back) for a count; a `<circle>` of radius 6
   * for the dot. Every drawing sits at the projected point; the shown icon
   * and label decode back to the marker's own.
   */
  lemma MarkerDrawing(fmt: Formatter, c: Canvas, m: Marker)
    requires m.lat.Some? && m.lng.Some? && !Degenerate(c)
    ensures var ns, p := MarkerTree(fmt, c, m).value, Placement(c, m);
      var mode, x, y := ModeOf(m), CoordString(fmt, p.x), CoordString(fmt, p.y);
      1 <= |ns| <= 2 && ns[0].Element? &&
      (|ns| == 2 <==> mode == CountMode) &&
      (ns[0].tag == "text" <==> mode == IconMode || mode == LabelMode) &&
      (ns[0].tag == "circle" <==> mode == CountMode || mode == DotMode) &&
      (mode == IconMode ==> Attr("class", ClassAttr(m) + " icon") in ns[0].attrs) &&
      (mode != IconMode ==> Attr("class", ClassAttr(m)) in ns[0].attrs) &&
      (ns[0].tag == "text" ==> Attr("x", x) in ns[0].attrs && Attr("y", y) in ns[0].attrs && ns[0].children[0].Text?) &&
      (ns[0].tag == "text" ==> Attr("text-anchor", "middle") in ns[0].attrs && Attr("dominant-baseline", "central") in ns[0].attrs) &&
      (ns[0].tag == "circle" ==> Attr("cx", x) in ns[0].attrs && Attr("cy", y) in ns[0].attrs) &&
      (mode == IconMode ==> Unescape(ns[0].children[0].content) == m.icon.value) &&
      (mode == LabelMode ==> Unescape(ns[0].children[0].content) == m.labelText.value) &&
      (mode == CountMode ==> Attr("r", "7") in ns[0].attrs) &&
      (mode == CountMode ==> ns[1] == CountBadge(x, CoordString(fmt, CoordPlus(p.y, 3.0)), IntToString(m.count.value))) &&
      (mode == DotMode ==> Attr("r", "6") in ns[0].attrs)
  {
    match ModeOf(m)
    case IconMode => UnescapeEscape(m.icon.value);
    case LabelMode => UnescapeEscape(m.labelText.value);
    case CountMode => CountBadgeShowsCount(fmt, Placement(c, m), m);
    case DotMode =>
  }

  /** The number of elements drawn per mode: a tooltip accompanies every drawing but the dot. */
  function ModeElements(mode: Mode): nat
  {
    match mode
    case IconMode => 2
    case CountMode => 3
    case LabelMode => 2
    case DotMode => 1
  }

  lemma TitleNodeElements(t: string)
    ensures ElementCount(TitleNode(t)) == 1
  {
    assert [Text(t)][1..] == [];
    assert ElementsCount([Text(t)]) == ElementCount(Text(t)) + ElementsCount([]);
  }

  lemma CentredTextElements(x: string, y: string, cls: string, content: string, title: string)
    ensures ElementCount(CentredText(x, y, cls, content, title)) == 2
  {
    var cs := [Text(content), TitleNode(title)];
    TitleNodeElements(title);
    assert ElementsCount(cs) == ElementCount(cs[0]) + ElementsCount(cs[1..]);
    assert cs[1..] == [TitleNode(title)] && cs[1..][1..] == [];
    assert ElementsCount(cs[1..]) == ElementCount(TitleNode(title)) + ElementsCount([]);
  }

  lemma SingleChildElements(n: Node)
    requires n.Element? && |n.children| == 1
    ensures ElementCount(n) == 1 + ElementCount(n.children[0])
  {
    assert n.children[1..] == [];
    assert ElementsCount(n.children) == ElementCount(n.children[0]) + ElementsCount([]);
  }

  lemma MarkerElementCount(fmt: Formatter, p: Point, m: Marker)
    ensures ElementsCount(MarkerNodes(fmt, p, m)) == ModeElements(ModeOf(m))
  {
    var x, y := CoordString(fmt, p.x), CoordString(fmt, p.y);
    var cls, title := ClassValue(m), Title(m);
    var ns := MarkerNodes(fmt, p, m);
    TitleNodeElements(title);
    assert ElementsCount(ns) == ElementCount(ns[0]) + ElementsCount(ns[1..]);
    match ModeOf(m)
    case CountMode =>
      var circle, badge := ns[0], ns[1];
      assert ns[1..] == [badge] && ns[1..][1..] == [];
      assert ElementsCount(ns[1..]) == ElementCount(badge) + ElementsCount([]);
      SingleChildElements(badge);
      SingleChildElements(circle);
    case DotMode =>
      assert ns[1..] == [];
    case IconMode =>
      assert ns == [CentredText(x, y, cls, HtmlSpecialChars(m.icon.value), title)];
      assert ns[1..] == [];
      CentredTextElements(x, y, cls, HtmlSpecialChars(m.icon.value), title);
    case LabelMode =>
      assert ns == [CentredText(x, y, cls, HtmlSpecialChars(m.labelText.value), title)];
      assert ns[1..] == [];
      CentredTextElements(x, y, cls, HtmlSpecialChars(m.labelText.value), title);
  }

  /** No markup character appears in a list joined with a space exactly when none appears in any piece. */
  lemma {:induction false} NoMarkupImplode(pieces: seq<string>)
    ensures NoMarkup(Implode(" ", pieces)) <==> forall k :: 0 <= k < |pieces| ==> NoMarkup(pieces[k])
    decreases |pieces|
  {
    if |pieces| > 1 {
      NoMarkupImplode(pieces[1..]);
      var rest := Implode(" ", pieces[1..]);
      assert Implode(" ", pieces) == pieces[0] + " " + rest;
      NoMarkupConcat(pieces[0] + " ", rest);
      NoMarkupConcat(pieces[0], " ");
      assert forall k :: 1 <= k < |pieces| ==> pieces[k] == pieces[1..][k - 1];
    }
  }

  lemma NoMarkupConcat(a: string, b: string)
    ensures NoMarkup(a + b) <==> NoMarkup(a) && NoMarkup(b)
  {
    if NoMarkup(a + b) {
      assert forall i :: 0 <= i < |a| ==> a[i] == (a + b)[i];
      assert forall i :: 0 <= i < |b| ==> b[i] == (a + b)[|a| + i];
    }
  }

  /** A sanitized type holds neither a space nor a markup character. */
  lemma ClassCharsArePlain(t: string)
    requires AllClassChars(t)
    ensures ' ' !in t && NoMarkup(t)
  {
  }

  lemma ClassCandidatesPlain(m: Marker)
    ensures var cands := ClassCandidates(m);
      (IsEmpty(m.extraClass) || NoMarkup(m.extraClass.value)) <==> forall k :: 0 <= k < |cands| ==> NoMarkup(cands[k])
  {
    var cands := ClassCandidates(m);
    if !IsEmpty(m.markerType) {
      ClassCharsArePlain(StripToClassChars(m.markerType.value));
    }
    MarkerLiterals();
    if !IsEmpty(m.extraClass) {
      assert cands[|cands| - 1] == m.extraClass.value;
    }
  }

  /** Only the extra class can bring a markup character into the class list: the type is sanitized. */
  lemma ClassAttrPlain(m: Marker)
    ensures NoMarkup(ClassAttr(m)) <==> IsEmpty(m.extraClass) || NoMarkup(m.extraClass.value)
  {
    var cands := ClassCandidates(m);
    var list := ArrayUnique(cands);
    NoMarkupImplode(list);
    var extraPlain := IsEmpty(m.extraClass) || NoMarkup(m.extraClass.value);
    ClassCandidatesPlain(m);
    if extraPlain {
      forall k | 0 <= k < |list| ensures NoMarkup(list[k]) {
        assert list[k] in cands;
      }
    } else {
      assert m.extraClass.value in list;
      var k :| 0 <= k < |list| && list[k] == m.extraClass.value;
    }
  }

  /** The element and attribute names and the fixed values of the marker templates. */
  lemma MarkerLiterals()
    ensures IsName("text") && IsName("circle") && IsName("title")
    ensures IsName("x") && IsName("y") && IsName("cx") && IsName("cy") && IsName("r") && IsName("class")
    ensures IsName("text-anchor") && IsName("dominant-baseline") && IsName("data-name")
    ensures NoMarkup("marker") && NoMarkup("middle") && NoMarkup("central") && NoMarkup("label") && NoMarkup("6") && NoMarkup("7")
  {
    LongMarkerNames();
  }

  lemma LongMarkerNames()
    ensures IsName("text-anchor") && IsName("dominant-baseline") && IsName("data-name")
  {
  }

  lemma CentredTextWellFormed(x: string, y: string, cls: string, content: string, title: string)
    requires NoMarkup(x) && NoMarkup(y) && NoMarkup(content) && NoMarkup(title)
    ensures WellFormed(CentredText(x, y, cls, content, title)) <==> NoMarkup(cls)
  {
    var n := CentredText(x, y, cls, content, title);
    MarkerLiterals();
    assert n.attrs[2].value == cls;
    assert WellFormed(TitleNode(title));
    assert n.children[0] == Text(content) && n.children[1] == TitleNode(title);
    assert AllWellFormed(n.children);
    assert IsName(n.tag);
    if NoMarkup(cls) {
      assert WellFormedAttrs(n.attrs);
    }
  }

  lemma CountCircleWellFormed(x: string, y: string, cls: string, title: string)
    requires NoMarkup(x) && NoMarkup(y) && NoMarkup(title)
    ensures WellFormed(CountCircle(x, y, cls, title)) <==> NoMarkup(cls)
  {
    var n := CountCircle(x, y, cls, title);
    MarkerLiterals();
    assert n.attrs[3].value == cls;
    assert WellFormed(TitleNode(title));
  }

  lemma CountBadgeWellFormed(x: string, y: string, count: string)
    requires NoMarkup(x) && NoMarkup(y) && NoMarkup(count)
    ensures WellFormed(CountBadge(x, y, count))
  {
    MarkerLiterals();
  }

  lemma DotWellFormed(x: string, y: string, cls: string, title: string)
    requires NoMarkup(x) && NoMarkup(y) && NoMarkup(title)
    ensures WellFormed(Dot(x, y, cls, title)) <==> NoMarkup(cls)
  {
    var n := Dot(x, y, cls, title);
    MarkerLiterals();
    assert n.attrs[0].value == cls;
  }

  /**
   * A placed marker is well-formed markup, under a formatter that writes
   * numerals, exactly when its extra class holds no markup character: the
   * name, icon, label and count are escaped and the type is sanitized, but
   * the extra class is interpolated as it is.
   */
  lemma MarkerWellFormedIff(fmt: Formatter, p: Point, m: Marker)
    requires NumeralFormatter(fmt)
    ensures AllWellFormed(MarkerNodes(fmt, p, m)) <==> IsEmpty(m.extraClass) || NoMarkup(m.extraClass.value)
  {
    var x, y, y3 := CoordString(fmt, p.x), CoordString(fmt, p.y), CoordString(fmt, CoordPlus(p.y, 3.0));
    NumeralIsPlain(x);
    NumeralIsPlain(y);
    NumeralIsPlain(y3);
    ClassAttrPlain(m);
    NoMarkupConcat(ClassAttr(m), " icon");
    assert NoMarkup(" icon");
    var cls, title := ClassValue(m), Title(m);
    assert NoMarkup(cls) <==> IsEmpty(m.extraClass) || NoMarkup(m.extraClass.value);
    var ns := MarkerNodes(fmt, p, m);
    match ModeOf(m)
    case IconMode =>
      CentredTextWellFormed(x, y, cls, HtmlSpecialChars(m.icon.value), title);
      assert ns == [CentredText(x, y, cls, HtmlSpecialChars(m.icon.value), title)];
      assert WellFormed(ns[0]) <==> NoMarkup(cls);
      assert AllWellFormed(ns) <==> WellFormed(ns[0]);
    case CountMode =>
      var count := HtmlSpecialChars(IntToString(m.count.value));
      CountCircleWellFormed(x, y, cls, title);
      CountBadgeWellFormed(x, y3, count);
      assert ns == [CountCircle(x, y, cls, title), CountBadge(x, y3, count)];
      assert AllWellFormed(ns) <==> WellFormed(ns[0]) && WellFormed(ns[1]);
    case LabelMode =>
      CentredTextWellFormed(x, y, cls, HtmlSpecialChars(m.labelText.value), title);
      assert ns == [CentredText(x, y, cls, HtmlSpecialChars(m.labelText.value), title)];
      assert AllWellFormed(ns) <==> WellFormed(ns[0]);
    case DotMode =>
      DotWellFormed(x, y, cls, title);
      assert ns == [Dot(x, y, cls, title)];
      assert AllWellFormed(ns) <==> WellFormed(ns[0]);
  }

  /**
   * Every `<` of a placed marker's markup opens or closes one of its
   * elements, so the number of tags is fixed by the mode, whatever the
   * name, icon, label, type or count hold.
   */
  lemma MarkerTagCount(fmt: Formatter, p: Point, m: Marker)
    requires NumeralFormatter(fmt)
    requires IsEmpty(m.extraClass) || NoMarkup(m.extraClass.value)
    ensures Count(SerializeAll(MarkerNodes(fmt, p, m)), '<') == 2 * ModeElements(ModeOf(m))
  {
    MarkerWellFormedIff(fmt, p, m);
    TagsCount(MarkerNodes(fmt, p, m));
    MarkerElementCount(fmt, p, m);
  }

  /**
   * Without spaces in the extra class, splitting the `class` list at its
   * spaces gives back `array_unique($classes)`: `marker` first, then each
   * class once.
   */
  lemma ClassAttrSplits(m: Marker)
    requires IsEmpty(m.extraClass) || ' ' !in m.extraClass.value
    ensures Explode(' ', ClassAttr(m)) == ArrayUnique(ClassCandidates(m))
  {
    var cands := ClassCandidates(m);
    var list := ArrayUnique(cands);
    if !IsEmpty(m.markerType) {
      ClassCharsArePlain(StripToClassChars(m.markerType.value));
    }
    assert forall k :: 0 <= k < |cands| ==> ' ' !in cands[k];
    assert forall k :: 0 <= k < |list| ==> list[k] in cands;
    ExplodeImplode(' ', list);
  }

  /**
   * In the count mode the text under the circle, read back as a decimal,
   * is the marker's count, and it sits 3 units below the marker.
   */
  lemma CountBadgeShowsCount(fmt: Formatter, p: Point, m: Marker)
    requires ModeOf(m) == CountMode
    ensures var ns := MarkerNodes(fmt, p, m);
      |ns| == 2 && ns[1] == CountBadge(CoordString(fmt, p.x), CoordString(fmt, CoordPlus(p.y, 3.0)), IntToString(m.count.value)) &&
      DecimalValue(IntToString(m.count.value)) == m.count.value
  {
    var t := IntToString(m.count.value);
    var x, y, y3 := CoordString(fmt, p.x), CoordString(fmt, p.y), CoordString(fmt, CoordPlus(p.y, 3.0));
    assert MarkerNodes(fmt, p, m) == [CountCircle(x, y, ClassValue(m), Title(m)), CountBadge(x, y3, HtmlSpecialChars(t))];
    assert forall k :: 0 <= k < |t| ==> !IsSpecialChar(t[k]);
    EscapeIdentityIff(t);
    IntToStringRoundTrip(m.count.value);
  }

  /**
   * The marker's name, escaped, is its tooltip in every mode but the dot,
   * where it is the last attribute, `data-name`; either way unescaping it
   * gives back the name (or "" without one).
   */
  lemma MarkerNameShown(fmt: Formatter, p: Point, m: Marker)
    ensures var ns := MarkerNodes(fmt, p, m);
      ns[0].Element? &&
      (ModeOf(m) != DotMode ==> Last(ns[0].children) == TitleNode(Title(m))) &&
      (ModeOf(m) == DotMode ==> ns[0].children == [] && Last(ns[0].attrs) == Attr("data-name", Title(m)))
    ensures Unescape(Title(m)) == m.name.GetOr("")
  {
    UnescapeEscape(m.name.GetOr(""));
  }
}
