/**
 * String normalisation: Python's `str.strip()` and `str.lower()`, as the
 * pipeline applies them to e-mail addresses, affiliations and account labels.
 */
module Text {

  /** Python's `str.isspace()`: the characters `str.strip()` removes. */
  predicate IsSpace(c: char)
  {
    || ('\t' <= c <= '\r')                // tab, line feed, vertical tab, form feed, carriage return
    || ('\U{1C}' <= c <= '\U{1F}')        // file, group, record and unit separators
    || c == ' ' || c == '\U{85}' || c == '\U{A0}' || c == '\U{1680}'
    || ('\U{2000}' <= c <= '\U{200A}')    // en quad .. hair space
    || c == '\U{2028}' || c == '\U{2029}' || c == '\U{202F}' || c == '\U{205F}' || c == '\U{3000}'
  }

  /** `s.lstrip()`: drop white space from the front. */
  function TrimStart(s: string): string
  {
    if |s| > 0 && IsSpace(s[0]) then TrimStart(s[1..]) else s
  }

  /** `s.rstrip()`: drop white space from the back. */
  function TrimEnd(s: string): string
  {
    if |s| > 0 && IsSpace(s[|s| - 1]) then TrimEnd(s[..|s| - 1]) else s
  }

  /** `s.strip()`: `s` without its leading and trailing white space. */
  function Trim(s: string): string
  {
    TrimEnd(TrimStart(s))
  }

  /** ASCII `char.lower()`. */
  function LowerChar(c: char): char
  {
    if 'A' <= c <= 'Z' then (c as int + 32) as char else c
  }

  /** `s.lower()`, restricted to the ASCII letters. */
  function Lower(s: string): string
  {
    if |s| == 0 then [] else [LowerChar(s[0])] + Lower(s[1..])
  }

  /** The comparison key `s.strip().lower()`. */
  function Normalize(s: string): string
  {
    Lower(Trim(s))
  }

  /** `s.lstrip()` is the longest suffix of `s` that does not start with white space. */
  lemma {:induction false} TrimStartSpec(s: string)
    ensures |TrimStart(s)| <= |s| && TrimStart(s) == s[|s| - |TrimStart(s)|..]
    ensures forall i :: 0 <= i < |s| - |TrimStart(s)| ==> IsSpace(s[i])
    ensures TrimStart(s) == [] || !IsSpace(TrimStart(s)[0])
  {
    if |s| > 0 && IsSpace(s[0]) {
      TrimStartSpec(s[1..]);
    }
  }

  /** `s.rstrip()` is the longest prefix of `s` that does not end with white space. */
  lemma {:induction false} TrimEndSpec(s: string)
    ensures |TrimEnd(s)| <= |s| && TrimEnd(s) == s[..|TrimEnd(s)|]
    ensures forall i :: |TrimEnd(s)| <= i < |s| ==> IsSpace(s[i])
    ensures TrimEnd(s) == [] || !IsSpace(TrimEnd(s)[|TrimEnd(s)| - 1])
  {
    if |s| > 0 && IsSpace(s[|s| - 1]) {
      TrimEndSpec(s[..|s| - 1]);
    }
  }

  /** `s.strip()` is the infix of `s` left after removing white space at both ends. */
  lemma TrimIsInfix(s: string)
    ensures exists i, j ::
              && 0 <= i <= j <= |s| && Trim(s) == s[i..j]
              && (forall k :: 0 <= k < i ==> IsSpace(s[k]))
              && (forall k :: j <= k < |s| ==> IsSpace(s[k]))
    ensures Trim(s) == [] || (!IsSpace(Trim(s)[0]) && !IsSpace(Trim(s)[|Trim(s)| - 1]))
  {
    var t := TrimStart(s);
    TrimStartSpec(s);
    var i := |s| - |t|;
    var u := TrimEnd(t);
    TrimEndSpec(t);
    var j := i + |u|;
    assert u == s[i..j];
    if u != [] {
      assert u[0] == t[0];
    }
  }

  /** Stripping twice is stripping once. */
  lemma TrimIdempotent(s: string)
    ensures Trim(Trim(s)) == Trim(s)
  {
    TrimIsInfix(s);
    TrimOfTrimmed(Trim(s));
  }

  /** A string without white space at either end is its own strip. */
  lemma TrimOfTrimmed(s: string)
    requires s == [] || (!IsSpace(s[0]) && !IsSpace(s[|s| - 1]))
    ensures Trim(s) == s
  {
  }

  /** `s.lower()` lower-cases each character in place. */
  lemma {:induction false} LowerSpec(s: string)
    ensures |Lower(s)| == |s|
    ensures forall i :: 0 <= i < |s| ==> Lower(s)[i] == LowerChar(s[i])
  {
    if |s| > 0 {
      LowerSpec(s[1..]);
    }
  }

  /** Lower-casing never turns white space into a letter or back. */
  lemma LowerCharKeepsSpace(c: char)
    ensures IsSpace(LowerChar(c)) == IsSpace(c)
    ensures LowerChar(LowerChar(c)) == LowerChar(c)
  {
  }

  /** Lower-casing twice is lower-casing once. */
  lemma LowerIdempotent(s: string)
    ensures Lower(Lower(s)) == Lower(s)
  {
    var l := Lower(s);
    LowerSpec(s);
    LowerSpec(l);
    forall i | 0 <= i < |s|
      ensures Lower(l)[i] == l[i]
    {
      LowerCharKeepsSpace(s[i]);
    }
  }

  /** Normalising a normalised string changes nothing, so normalised keys are stable. */
  lemma NormalizeIdempotent(s: string)
    ensures Normalize(Normalize(s)) == Normalize(s)
  {
    var t := Trim(s);
    var l := Lower(t);
    TrimIsInfix(s);
    LowerSpec(t);
    if l != [] {
      LowerCharKeepsSpace(t[0]);
      LowerCharKeepsSpace(t[|t| - 1]);
    }
    TrimOfTrimmed(l);
    LowerIdempotent(t);
  }

  /** Every character of `s` is white space. */
  predicate AllSpace(s: string)
  {
    forall i :: 0 <= i < |s| ==> IsSpace(s[i])
  }

  lemma {:induction false} TrimStartPadded(p: string, x: string)
    requires AllSpace(p)
    ensures TrimStart(p + x) == TrimStart(x)
  {
    if |p| > 0 {
      assert (p + x)[0] == p[0] && (p + x)[1..] == p[1..] + x;
      TrimStartPadded(p[1..], x);
    } else {
      assert p + x == x;
    }
  }

  lemma {:induction false} TrimEndPadded(x: string, q: string)
    requires AllSpace(q)
    ensures TrimEnd(x + q) == TrimEnd(x)
  {
    if |q| > 0 {
      assert (x + q)[|x + q| - 1] == q[|q| - 1];
      assert (x + q)[..|x + q| - 1] == x + q[..|q| - 1];
      TrimEndPadded(x, q[..|q| - 1]);
    } else {
      assert x + q == x;
    }
  }

  /** Once `x` holds a non-space character, what follows it is kept by `lstrip`. */
  lemma {:induction false} TrimStartAppend(x: string, q: string)
    requires TrimStart(x) != []
    ensures TrimStart(x + q) == TrimStart(x) + q
  {
    if |x| > 0 && IsSpace(x[0]) {
      assert (x + q)[1..] == x[1..] + q;
      TrimStartAppend(x[1..], q);
    }
  }

  /** Padding a string with white space on either side does not change its key. */
  lemma NormalizeIgnoresPadding(s: string, p: string, q: string)
    requires AllSpace(p) && AllSpace(q)
    ensures Normalize(p + s + q) == Normalize(s)
  {
    assert p + s + q == p + (s + q);
    TrimStartPadded(p, s + q);
    if TrimStart(s) != [] {
      TrimStartAppend(s, q);
      TrimEndPadded(TrimStart(s), q);
    } else {
      TrimStartSpec(s);
      assert AllSpace(s + q);
      TrimStartPadded(s + q, []);
      assert s + q + [] == s + q;
    }
  }

  lemma {:induction false} TrimStartLower(s: string)
    ensures TrimStart(Lower(s)) == Lower(TrimStart(s))
  {
    if |s| > 0 {
      LowerCharKeepsSpace(s[0]);
      TrimStartLower(s[1..]);
    }
  }

  lemma {:induction false} TrimEndLower(s: string)
    ensures TrimEnd(Lower(s)) == Lower(TrimEnd(s))
  {
    if |s| > 0 {
      var init := s[..|s| - 1];
      LowerSpec(s);
      LowerSpec(init);
      LowerCharKeepsSpace(s[|s| - 1]);
      assert Lower(s)[..|s| - 1] == Lower(init);
      TrimEndLower(init);
    }
  }

  /** Lower-casing a string first does not change its key. */
  lemma NormalizeIgnoresCase(s: string)
    ensures Normalize(Lower(s)) == Normalize(s)
  {
    TrimStartLower(s);
    TrimEndLower(TrimStart(s));
    LowerIdempotent(Trim(s));
  }
}
