/**
 * A small tree of SVG markup and its serialization. The generator builds
 * its output by string interpolation; the model describes the same output
 * as a tree of elements, attributes and text whose serialization reproduces
 * the interpolated tags, attribute order and quote characters.
 * Well-formedness (no text or attribute value holding a markup character)
 * then says that no piece of data can open or close a tag or an attribute.
 */
module Markup {
  import opened Html

  datatype Attr = Attr(name: string, value: string)

  /** Text, or an element whose attribute values are delimited by `quote` (the generator uses both `"` and `'`). */
  datatype Node =
    | Text(content: string)
    | Element(tag: string, quote: char, attrs: seq<Attr>, children: seq<Node>)

  /** ` name="value"` for each attribute, in order. */
  function AttrsString(quote: char, attrs: seq<Attr>): string
    decreases |attrs|
  {
    if attrs == [] then ""
    else " " + attrs[0].name + "=" + [quote] + attrs[0].value + [quote] + AttrsString(quote, attrs[1..])
  }

  /** `<tag name="value" ...>`. */
  function OpenTag(tag: string, quote: char, attrs: seq<Attr>): string
  {
    "<" + tag + AttrsString(quote, attrs) + ">"
  }

  /** `</tag>`. */
  function CloseTag(tag: string): string
  {
    "</" + tag + ">"
  }

  function Serialize(n: Node): string
    decreases n
  {
    match n
    case Text(content) => content
    case Element(tag, quote, attrs, children) =>
      OpenTag(tag, quote, attrs) + SerializeAll(children) + CloseTag(tag)
  }

  function SerializeAll(ns: seq<Node>): string
    decreases ns
  {
    if ns == [] then "" else Serialize(ns[0]) + SerializeAll(ns[1..])
  }

  lemma {:induction false} SerializeAllConcat(a: seq<Node>, b: seq<Node>)
    ensures SerializeAll(a + b) == SerializeAll(a) + SerializeAll(b)
    decreases |a|
  {
    if a == [] {
      assert a + b == b;
    } else {
      assert (a + b)[1..] == a[1..] + b;
      SerializeAllConcat(a[1..], b);
    }
  }

  lemma {:induction false} ElementsCountConcat(a: seq<Node>, b: seq<Node>)
    ensures ElementsCount(a + b) == ElementsCount(a) + ElementsCount(b)
    decreases |a|
  {
    if a == [] {
      assert a + b == b;
    } else {
      assert (a + b)[1..] == a[1..] + b;
      ElementsCountConcat(a[1..], b);
    }
  }

  lemma SerializeAllSingle(n: Node)
    ensures SerializeAll([n]) == Serialize(n)
  {
    assert [n][1..] == [];
  }

  /** An element or attribute name: non-empty ASCII letters, digits and hyphens. */
  predicate IsName(s: string)
  {
    s != [] && forall i :: 0 <= i < |s| ==> ('a' <= s[i] <= 'z') || ('A' <= s[i] <= 'Z') || ('0' <= s[i] <= '9') || s[i] == '-'
  }

  predicate WellFormedAttrs(attrs: seq<Attr>)
  {
    forall i :: 0 <= i < |attrs| ==> IsName(attrs[i].name) && NoMarkup(attrs[i].value)
  }

  /** No text and no attribute value holds `<`, `>`, `"` or `'`, and every name is a name. */
  predicate WellFormed(n: Node)
    decreases n
  {
    match n
    case Text(content) => NoMarkup(content)
    case Element(tag, quote, attrs, children) =>
      IsName(tag) && (quote == '"' || quote == '\'') && WellFormedAttrs(attrs) && AllWellFormed(children)
  }

  predicate AllWellFormed(ns: seq<Node>)
    decreases ns
  {
    forall i :: 0 <= i < |ns| ==> WellFormed(ns[i])
  }

  lemma AllWellFormedConcat(a: seq<Node>, b: seq<Node>)
    ensures AllWellFormed(a + b) <==> AllWellFormed(a) && AllWellFormed(b)
  {
    if AllWellFormed(a + b) {
      assert forall i :: 0 <= i < |a| ==> a[i] == (a + b)[i];
      assert forall i :: 0 <= i < |b| ==> b[i] == (a + b)[|a| + i];
    }
  }

  /** The number of elements in a tree. */
  function ElementCount(n: Node): nat
    decreases n
  {
    match n
    case Text(_) => 0
    case Element(_, _, _, children) => 1 + ElementsCount(children)
  }

  function ElementsCount(ns: seq<Node>): nat
    decreases ns
  {
    if ns == [] then 0 else ElementCount(ns[0]) + ElementsCount(ns[1..])
  }

  function Count(s: string, c: char): nat
  {
    multiset(s)[c]
  }

  lemma NoMarkupCount(s: string)
    requires NoMarkup(s)
    ensures Count(s, '<') == 0
  {
  }

  lemma NameCount(s: string)
    requires IsName(s)
    ensures Count(s, '<') == 0
  {
  }

  lemma {:induction false} AttrsCount(quote: char, attrs: seq<Attr>)
    requires quote == '"' || quote == '\''
    requires WellFormedAttrs(attrs)
    ensures Count(AttrsString(quote, attrs), '<') == 0
    decreases |attrs|
  {
    if attrs != [] {
      NameCount(attrs[0].name);
      NoMarkupCount(attrs[0].value);
      AttrsCount(quote, attrs[1..]);
    }
  }

  /**
   * In the serialization of a well-formed tree every `<` is the start of an
   * opening or a closing tag: there are exactly two per element, so no
   * piece of data smuggles in a tag.
   */
  lemma {:induction false} TagCount(n: Node)
    requires WellFormed(n)
    ensures Count(Serialize(n), '<') == 2 * ElementCount(n)
    decreases n
  {
    match n
    case Text(content) =>
      NoMarkupCount(content);
    case Element(tag, quote, attrs, children) =>
      NameCount(tag);
      AttrsCount(quote, attrs);
      TagsCount(children);
  }

  lemma {:induction false} TagsCount(ns: seq<Node>)
    requires AllWellFormed(ns)
    ensures Count(SerializeAll(ns), '<') == 2 * ElementsCount(ns)
    decreases ns
  {
    if ns != [] {
      TagCount(ns[0]);
      TagsCount(ns[1..]);
    }
  }
}
