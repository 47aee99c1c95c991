/**
 * PHP's `htmlspecialchars()` with the default flags of PHP 8.1 and later
 * (ENT_QUOTES | ENT_SUBSTITUTE | ENT_HTML401), as a per-character escape of
 * the five reserved markup characters. Its partner is `Unescape`, which
 * decodes exactly those five entities; the round trip shows that escaping
 * loses nothing.
 */
module Html {

  /** The characters that could end an attribute value or open or close a tag. */
  predicate IsMarkupChar(c: char)
  {
    c == '<' || c == '>' || c == '"' || c == '\''
  }

  /** The characters `htmlspecialchars()` rewrites. */
  predicate IsSpecialChar(c: char)
  {
    c == '&' || IsMarkupChar(c)
  }

  /** Text that can sit inside an element or a quoted attribute without changing the markup around it. */
  predicate NoMarkup(s: string)
  {
    forall i :: 0 <= i < |s| ==> !IsMarkupChar(s[i])
  }

  function EscapeChar(c: char): (e: string)
    ensures NoMarkup(e)
  {
    if c == '&' then "&amp;"
    else if c == '"' then "&quot;"
    else if c == '\'' then "&#039;"
    else if c == '<' then "&lt;"
    else if c == '>' then "&gt;"
    else [c]
  }

  /** `htmlspecialchars($s)`: no markup character survives, and the text only grows. */
  function HtmlSpecialChars(s: string): (r: string)
    ensures NoMarkup(r)
    ensures |r| >= |s|
    decreases |s|
  {
    if s == [] then ""
    else
      var e, rest := EscapeChar(s[0]), HtmlSpecialChars(s[1..]);
      assert forall i :: |e| <= i < |e| + |rest| ==> (e + rest)[i] == rest[i - |e|];
      e + rest
  }

  /** Decoding of the five entities `htmlspecialchars()` produces; any other text is kept as it is. */
  function Unescape(t: string): string
    decreases |t|
  {
    if t == [] then ""
    else if |t| >= 5 && t[..5] == "&amp;" then "&" + Unescape(t[5..])
    else if |t| >= 6 && t[..6] == "&quot;" then "\"" + Unescape(t[6..])
    else if |t| >= 6 && t[..6] == "&#039;" then "'" + Unescape(t[6..])
    else if |t| >= 4 && t[..4] == "&lt;" then "<" + Unescape(t[4..])
    else if |t| >= 4 && t[..4] == "&gt;" then ">" + Unescape(t[4..])
    else [t[0]] + Unescape(t[1..])
  }

  lemma UnescapeEscapeChar(c: char, rest: string)
    ensures Unescape(EscapeChar(c) + rest) == [c] + Unescape(rest)
  {
    var e := EscapeChar(c);
    var t := e + rest;
    assert t[..|e|] == e;
    assert t[|e|..] == rest;
    if c == '&' {
    } else if c == '"' {
      assert t[1] == 'q';
      assert t[..5][1] == 'q';
    } else if c == '\'' {
      assert t[1] == '#';
      assert t[..5][1] == '#';
      assert t[..6][1] == '#';
    } else if c == '<' {
      assert t[1] == 'l';
      assert |t| >= 5 ==> t[..5][1] == 'l';
      assert |t| >= 6 ==> t[..6][1] == 'l';
    } else if c == '>' {
      assert t[1] == 'g';
      assert |t| >= 5 ==> t[..5][1] == 'g';
      assert |t| >= 6 ==> t[..6][1] == 'g';
      assert t[..4][1] == 'g';
    } else {
      assert t[0] == c;
      assert |t| >= 4 ==> t[..4][0] == c;
      assert |t| >= 5 ==> t[..5][0] == c;
      assert |t| >= 6 ==> t[..6][0] == c;
    }
  }

  /** Decoding the escaped text gives the original text back: the escape is injective. */
  lemma {:induction false} UnescapeEscape(s: string)
    ensures Unescape(HtmlSpecialChars(s)) == s
    decreases |s|
  {
    if s != [] {
      UnescapeEscapeChar(s[0], HtmlSpecialChars(s[1..]));
      UnescapeEscape(s[1..]);
      assert s == [s[0]] + s[1..];
    }
  }

  /** Escaping works character by character: it distributes over concatenation. */
  lemma {:induction false} EscapeConcat(a: string, b: string)
    ensures HtmlSpecialChars(a + b) == HtmlSpecialChars(a) + HtmlSpecialChars(b)
    decreases |a|
  {
    if a == [] {
      assert a + b == b;
    } else {
      assert (a + b)[1..] == a[1..] + b;
      EscapeConcat(a[1..], b);
    }
  }

  /** Escaping leaves a text unchanged exactly when it holds none of `& < > " '`. */
  lemma {:induction false} EscapeIdentityIff(s: string)
    ensures HtmlSpecialChars(s) == s <==> forall i :: 0 <= i < |s| ==> !IsSpecialChar(s[i])
    decreases |s|
  {
    if s != [] {
      EscapeIdentityIff(s[1..]);
      var rest := HtmlSpecialChars(s[1..]);
      if IsSpecialChar(s[0]) {
        assert |EscapeChar(s[0])| > 1;
        assert |HtmlSpecialChars(s)| > |s|;
      } else {
        assert HtmlSpecialChars(s) == [s[0]] + rest;
        if rest == s[1..] {
          assert s == [s[0]] + s[1..];
        } else {
          assert HtmlSpecialChars(s)[1..] == rest;
        }
        assert (forall i :: 0 <= i < |s| ==> !IsSpecialChar(s[i])) <==>
               (forall i :: 0 <= i < |s[1..]| ==> !IsSpecialChar(s[1..][i])) by {
          forall i | 1 <= i < |s| ensures s[i] == s[1..][i - 1] { }
        }
      }
    }
  }
}
