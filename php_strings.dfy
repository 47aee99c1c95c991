/**
 * The PHP string built-ins the generator relies on: `empty()` on a string,
 * `trim()`, `implode()`, `explode()` and the decimal rendering of an `int`.
 * Each comes with the property that pins it down (a characterisation or a
 * round trip), so that the rest of the model can reason about its output.
 */
module PhpStrings {
  import opened Wrappers

  /** PHP `empty()` on an optional string: a missing key, `null`, "" and "0" are all empty. */
  predicate IsEmpty(s: Option<string>)
  {
    s.None? || s.value == "" || s.value == "0"
  }

  /** The characters PHP's `trim()` strips by default: space, tab, LF, CR, NUL and vertical tab. */
  predicate IsTrimChar(c: char)
  {
    c == ' ' || c == '\t' || c == '\n' || c == '\r' || c == '\0' || c == '\U{000B}'
  }

  function Last<T>(s: seq<T>): T
    requires s != []
  {
    s[|s| - 1]
  }

  /** PHP `ltrim()`: the suffix left after dropping every leading trim character. */
  function TrimLeft(s: string): (r: string)
    ensures |r| <= |s| && r == s[|s| - |r|..]
    ensures forall i :: 0 <= i < |s| - |r| ==> IsTrimChar(s[i])
    ensures r == [] || !IsTrimChar(r[0])
    decreases |s|
  {
    if s != [] && IsTrimChar(s[0]) then
      var r := TrimLeft(s[1..]);
      assert s[1..][|s| - 1 - |r|..] == s[|s| - |r|..];
      assert forall i :: 1 <= i < |s| - |r| ==> s[i] == s[1..][i - 1];
      r
    else s
  }

  /** PHP `rtrim()`: the prefix left after dropping every trailing trim character. */
  function TrimRight(s: string): (r: string)
    ensures |r| <= |s| && r == s[..|r|]
    ensures forall i :: |r| <= i < |s| ==> IsTrimChar(s[i])
    ensures r == [] || !IsTrimChar(r[|r| - 1])
    decreases |s|
  {
    if s != [] && IsTrimChar(s[|s| - 1]) then
      var r := TrimRight(s[..|s| - 1]);
      assert forall i :: |r| <= i < |s| - 1 ==> s[i] == s[..|s| - 1][i];
      r
    else s
  }

  /** PHP `trim()`: neither end of the result is a trim character. */
  function Trim(s: string): (r: string)
    ensures r == [] || (!IsTrimChar(r[0]) && !IsTrimChar(r[|r| - 1]))
  {
    var t := TrimLeft(s);
    var r := TrimRight(t);
    assert r != [] ==> r[0] == t[0];
    r
  }

  /** Trimming a string whose ends are already not trim characters changes nothing. */
  lemma TrimUntrimmed(s: string)
    requires s == [] || (!IsTrimChar(s[0]) && !IsTrimChar(s[|s| - 1]))
    ensures Trim(s) == s
  {
  }

  /** PHP `implode($glue, $pieces)`: the pieces in order with `glue` between neighbours. */
  function Implode(glue: string, pieces: seq<string>): string
    decreases |pieces|
  {
    if pieces == [] then ""
    else if |pieces| == 1 then pieces[0]
    else pieces[0] + glue + Implode(glue, pieces[1..])
  }

  /** The joined string starts with the first piece and ends with the last one. */
  lemma {:induction false} ImplodeEnds(glue: string, pieces: seq<string>)
    requires pieces != []
    ensures var r := Implode(glue, pieces);
      |pieces[0]| <= |r| && r[..|pieces[0]|] == pieces[0] &&
      |Last(pieces)| <= |r| && r[|r| - |Last(pieces)|..] == Last(pieces)
    decreases |pieces|
  {
    if |pieces| > 1 {
      ImplodeEnds(glue, pieces[1..]);
      assert Last(pieces[1..]) == Last(pieces);
    }
  }

  /** Joining two non-empty runs of pieces is joining each run and gluing the two results. */
  lemma {:induction false} ImplodeConcat(glue: string, a: seq<string>, b: seq<string>)
    requires a != [] && b != []
    ensures Implode(glue, a + b) == Implode(glue, a) + glue + Implode(glue, b)
    decreases |a|
  {
    var ab := a + b;
    assert ab[0] == a[0];
    if |a| == 1 {
      assert ab[1..] == b;
      assert Implode(glue, ab) == a[0] + glue + Implode(glue, b);
    } else {
      assert ab[1..] == a[1..] + b;
      ImplodeConcat(glue, a[1..], b);
      assert Implode(glue, ab) == a[0] + glue + Implode(glue, a[1..] + b);
      assert Implode(glue, a) == a[0] + glue + Implode(glue, a[1..]);
    }
  }

  /** The string a loop builds by appending every piece followed by one space (`$s .= "$piece "`). */
  function Spaced(pieces: seq<string>): string
    decreases |pieces|
  {
    if pieces == [] then "" else Spaced(pieces[..|pieces| - 1]) + Last(pieces) + " "
  }

  lemma {:induction false} SpacedConcat(a: seq<string>, b: seq<string>)
    ensures Spaced(a + b) == Spaced(a) + Spaced(b)
    decreases |b|
  {
    if b == [] {
      assert a + b == a;
    } else {
      var b' := b[..|b| - 1];
      assert (a + b)[..|a + b| - 1] == a + b';
      SpacedConcat(a, b');
    }
  }

  /** Appending "piece + space" for every piece leaves the space-joined pieces and one trailing space. */
  lemma {:induction false} SpacedIsImplodeThenSpace(pieces: seq<string>)
    requires pieces != []
    ensures Spaced(pieces) == Implode(" ", pieces) + " "
    decreases |pieces|
  {
    assert Spaced([pieces[0]]) == pieces[0] + " " by {
      assert [pieces[0]][..0] == [];
    }
    if |pieces| > 1 {
      assert pieces == [pieces[0]] + pieces[1..];
      SpacedConcat([pieces[0]], pieces[1..]);
      SpacedIsImplodeThenSpace(pieces[1..]);
    }
  }

  /**
   * Trimming what a "piece + space" loop built gives the space-joined pieces,
   * provided the first piece does not start and the last piece does not end
   * with a trim character.
   */
  lemma TrimSpaced(pieces: seq<string>)
    requires pieces == [] || (pieces[0] != [] && !IsTrimChar(pieces[0][0]))
    requires pieces == [] || (Last(pieces) != [] && !IsTrimChar(Last(Last(pieces))))
    ensures Trim(Spaced(pieces)) == Implode(" ", pieces)
  {
    if pieces != [] {
      SpacedIsImplodeThenSpace(pieces);
      ImplodeEnds(" ", pieces);
      var x := Implode(" ", pieces);
      assert x[0] == pieces[0][0];
      assert x[|x| - 1] == Last(Last(pieces));
      TrimLeftUntrimmed(x + " ");
      TrimRightSpace(x);
    }
  }

  lemma TrimLeftUntrimmed(s: string)
    requires s == [] || !IsTrimChar(s[0])
    ensures TrimLeft(s) == s
  {
  }

  lemma TrimRightSpace(s: string)
    ensures TrimRight(s + " ") == TrimRight(s)
  {
    assert (s + " ")[..|s|] == s;
  }

  /** PHP `explode($delimiter, $s)` for a one-character delimiter: the maximal delimiter-free runs of `s`. */
  function Explode(delimiter: char, s: string): (pieces: seq<string>)
    ensures pieces != []
    ensures forall i :: 0 <= i < |pieces| ==> delimiter !in pieces[i]
    decreases |s|
  {
    if s == [] then [""]
    else
      var rest := Explode(delimiter, s[1..]);
      if s[0] == delimiter then [""] + rest
      else [[s[0]] + rest[0]] + rest[1..]
  }

  /** Splitting a delimiter-free prefix `t` off the front extends the first piece by `t`. */
  lemma {:induction false} ExplodeFreePrefix(delimiter: char, t: string, u: string)
    requires delimiter !in t
    ensures Explode(delimiter, t + u) == [t + Explode(delimiter, u)[0]] + Explode(delimiter, u)[1..]
    decreases |t|
  {
    if t == [] {
      assert t + u == u;
      var e := Explode(delimiter, u);
      assert e == [e[0]] + e[1..];
      assert t + e[0] == e[0];
    } else {
      assert (t + u)[1..] == t[1..] + u;
      ExplodeFreePrefix(delimiter, t[1..], u);
      assert [t[0]] + (t[1..] + Explode(delimiter, u)[0]) == t + Explode(delimiter, u)[0];
    }
  }

  /** Splitting the joined pieces at the glue character gives the pieces back. */
  lemma {:induction false} ExplodeImplode(delimiter: char, pieces: seq<string>)
    requires pieces != []
    requires forall i :: 0 <= i < |pieces| ==> delimiter !in pieces[i]
    ensures Explode(delimiter, Implode([delimiter], pieces)) == pieces
    decreases |pieces|
  {
    if |pieces| == 1 {
      ExplodeFreePrefix(delimiter, pieces[0], "");
      assert pieces[0] + "" == pieces[0];
    } else {
      var rest := Implode([delimiter], pieces[1..]);
      assert Implode([delimiter], pieces) == pieces[0] + ([delimiter] + rest);
      ExplodeFreePrefix(delimiter, pieces[0], [delimiter] + rest);
      assert ([delimiter] + rest)[1..] == rest;
      ExplodeImplode(delimiter, pieces[1..]);
      assert pieces[0] + "" == pieces[0];
    }
  }

  /** Joining the pieces of a split with the delimiter gives the original string back. */
  lemma {:induction false} ImplodeExplode(delimiter: char, s: string)
    ensures Implode([delimiter], Explode(delimiter, s)) == s
    decreases |s|
  {
    if s != [] {
      var rest := Explode(delimiter, s[1..]);
      ImplodeExplode(delimiter, s[1..]);
      assert s == [s[0]] + s[1..];
      if s[0] == delimiter {
        assert ([""] + rest)[1..] == rest;
      } else if |rest| > 1 {
        assert ([[s[0]] + rest[0]] + rest[1..])[1..] == rest[1..];
      }
    }
  }

  predicate IsDigit(c: char)
  {
    '0' <= c <= '9'
  }

  predicate AllDigits(s: string)
  {
    forall i :: 0 <= i < |s| ==> IsDigit(s[i])
  }

  function DigitChar(d: nat): (c: char)
    requires d < 10
    ensures IsDigit(c)
  {
    (48 + d) as char
  }

  /** The decimal digits of `n`, most significant first, without leading zeros. */
  function NatToString(n: nat): (s: string)
    ensures s != [] && AllDigits(s)
    ensures s[0] == '0' ==> n == 0
    decreases n
  {
    if n < 10 then [DigitChar(n)] else NatToString(n / 10) + [DigitChar(n % 10)]
  }

  /** PHP's `(string)` cast and string interpolation of an `int`: an optional minus sign, then decimal digits. */
  function IntToString(i: int): (s: string)
    ensures s != []
    ensures forall k :: 0 <= k < |s| ==> IsDigit(s[k]) || (k == 0 && s[k] == '-')
  {
    if i < 0 then "-" + NatToString(-i) else NatToString(i)
  }

  /** The number a string of decimal digits denotes. */
  ghost function DigitsValue(s: string): nat
    requires AllDigits(s)
    decreases |s|
  {
    if s == [] then 0 else DigitsValue(s[..|s| - 1]) * 10 + (Last(s) as int - 48)
  }

  /** The integer an optionally signed decimal string denotes. */
  ghost function DecimalValue(s: string): int
    requires s != [] && (AllDigits(s) || (s[0] == '-' && AllDigits(s[1..])))
  {
    if s[0] == '-' then 0 - DigitsValue(s[1..]) as int else DigitsValue(s)
  }

  lemma {:induction false} NatToStringValue(n: nat)
    ensures DigitsValue(NatToString(n)) == n
    decreases n
  {
    if n >= 10 {
      var s := NatToString(n);
      assert s[..|s| - 1] == NatToString(n / 10);
      NatToStringValue(n / 10);
    }
  }

  /** Reading back the decimal rendering of an int gives the int. */
  lemma IntToStringRoundTrip(i: int)
    ensures DecimalValue(IntToString(i)) == i
  {
    if i < 0 {
      assert IntToString(i)[1..] == NatToString(-i);
      NatToStringValue(-i);
    } else {
      NatToStringValue(i);
    }
  }

  lemma ConcatAssoc(a: string, b: string, c: string)
    ensures a + (b + c) == a + b + c
  {
  }
}
