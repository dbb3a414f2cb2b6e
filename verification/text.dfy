/**
 * String helpers the handlers rely on: lower-casing, whitespace stripping,
 * substring search, prefix tests and `", ".join`. Strings are sequences of
 * Unicode code points, as Python's `str` is.
 */
module Text {

  /* ---------------------------------------------------------------------
   * Lower-casing
   * ------------------------------------------------------------------- */

  /** Lower-case one character. Covers Basic Latin and the Cyrillic block
      U+0400..U+042F, which is every upper-case letter the screening
      vocabulary can be written with; other characters are left alone. */
  function LowerChar(c: char): char
  {
    if 'A' <= c <= 'Z' then (c as int + 32) as char
    else if 'А' <= c <= 'Я' then (c as int + 0x20) as char
    else if 'Ѐ' <= c <= 'Џ' then (c as int + 0x50) as char
    else c
  }

  /** Upper-case one character: the inverse direction of LowerChar. */
  function UpperChar(c: char): char
  {
    if 'a' <= c <= 'z' then (c as int - 32) as char
    else if 'а' <= c <= 'я' then (c as int - 0x20) as char
    else if 'ѐ' <= c <= 'џ' then (c as int - 0x50) as char
    else c
  }

  /** Lower-casing is idempotent, and upper-casing a character never changes
      what it lower-cases to. */
  lemma LowerCharFacts(c: char)
    ensures LowerChar(LowerChar(c)) == LowerChar(c)
    ensures LowerChar(UpperChar(c)) == LowerChar(c)
  {
  }

  /** `str.lower()`, character by character. */
  function Lower(s: string): (r: string)
    ensures |r| == |s|
    ensures forall i :: 0 <= i < |s| ==> r[i] == LowerChar(s[i])
  {
    seq(|s|, i requires 0 <= i < |s| => LowerChar(s[i]))
  }

  /** Upper-casing character by character. */
  function Upper(s: string): (r: string)
    ensures |r| == |s|
    ensures forall i :: 0 <= i < |s| ==> r[i] == UpperChar(s[i])
  {
    seq(|s|, i requires 0 <= i < |s| => UpperChar(s[i]))
  }

  /** Lower-casing distributes over concatenation and slicing. */
  lemma LowerConcat(a: string, b: string)
    ensures Lower(a + b) == Lower(a) + Lower(b)
  {
  }

  lemma LowerSlice(s: string, i: int, j: int)
    requires 0 <= i <= j <= |s|
    ensures Lower(s[i..j]) == Lower(s)[i..j]
  {
  }

  /** Two strings that agree up to letter case lower-case to the same string. */
  predicate SameUpToCase(a: string, b: string)
  {
    |a| == |b| && forall i :: 0 <= i < |a| ==> LowerChar(a[i]) == LowerChar(b[i])
  }

  lemma SameUpToCaseLower(a: string, b: string)
    requires SameUpToCase(a, b)
    ensures Lower(a) == Lower(b)
  {
  }

  lemma UpperIsSameUpToCase(s: string)
    ensures SameUpToCase(s, Upper(s))
    ensures SameUpToCase(s, Lower(s))
  {
    forall i | 0 <= i < |s| ensures LowerChar(s[i]) == LowerChar(Upper(s)[i]) {
      LowerCharFacts(s[i]);
    }
    forall i | 0 <= i < |s| ensures LowerChar(s[i]) == LowerChar(Lower(s)[i]) {
      LowerCharFacts(s[i]);
    }
  }

  /* ---------------------------------------------------------------------
   * Whitespace stripping
   * ------------------------------------------------------------------- */

  /** The characters `str.isspace()` accepts. */
  predicate IsSpace(c: char)
  {
    || c == ' ' || '\t' <= c <= '\r' || '\U{1C}' <= c <= '\U{1F}'
    || c == '\U{85}' || c == '\U{A0}' || c == '\U{1680}'
    || '\U{2000}' <= c <= '\U{200A}' || c == '\U{2028}' || c == '\U{2029}'
    || c == '\U{202F}' || c == '\U{205F}' || c == '\U{3000}'
  }

  /** Number of leading whitespace characters. */
  function LeadingSpace(s: string): (n: nat)
    ensures n <= |s|
    ensures forall i :: 0 <= i < n ==> IsSpace(s[i])
    ensures n < |s| ==> !IsSpace(s[n])
  {
    if |s| > 0 && IsSpace(s[0]) then 1 + LeadingSpace(s[1..]) else 0
  }

  /** Number of trailing whitespace characters. */
  function TrailingSpace(s: string): (n: nat)
    ensures n <= |s|
    ensures forall i :: |s| - n <= i < |s| ==> IsSpace(s[i])
    ensures n < |s| ==> !IsSpace(s[|s| - n - 1])
  {
    if |s| > 0 && IsSpace(s[|s| - 1]) then 1 + TrailingSpace(s[..|s| - 1]) else 0
  }

  /** `str.strip()`: the longest slice of `s` that neither starts nor ends
      with whitespace, with only whitespace cut on either side. */
  function Strip(s: string): (r: string)
    ensures exists a, b :: 0 <= a <= b <= |s| && r == s[a..b]
                           && (forall i :: 0 <= i < a ==> IsSpace(s[i]))
                           && (forall i :: b <= i < |s| ==> IsSpace(s[i]))
    ensures r != [] ==> !IsSpace(r[0]) && !IsSpace(r[|r| - 1])
    ensures |r| <= |s|
  {
    var a := LeadingSpace(s);
    var rest := s[a..];
    var t := TrailingSpace(rest);
    assert rest[..|rest| - t] == s[a..|s| - t];
    s[a..|s| - t]
  }

  /** A string with no whitespace at either end strips to itself. */
  lemma StripNoSpace(s: string)
    requires s != [] ==> !IsSpace(s[0]) && !IsSpace(s[|s| - 1])
    ensures Strip(s) == s
  {
    if s != [] {
      assert LeadingSpace(s) == 0;
      assert TrailingSpace(s[0..]) == 0;
      assert s[0..|s|] == s;
    }
  }

  /** Stripping twice is the same as stripping once. */
  lemma StripIdempotent(s: string)
    ensures Strip(Strip(s)) == Strip(s)
  {
    var r := Strip(s);
    if r != [] {
      assert LeadingSpace(r) == 0;
      assert TrailingSpace(r[0..]) == 0;
      assert r[0..|r|] == r;
    }
  }

  /* ---------------------------------------------------------------------
   * Prefixes and substrings
   * ------------------------------------------------------------------- */

  /** `s.startswith(p)`. */
  predicate StartsWith(s: string, p: string)
  {
    |p| <= |s| && s[..|p|] == p
  }

  /** `w` occurs in `s` starting at index `i`. */
  predicate OccursAt(s: string, w: string, i: int)
  {
    0 <= i && i + |w| <= |s| && s[i..i + |w|] == w
  }

  /** The meaning of Python's `w in s`. */
  ghost predicate Occurs(s: string, w: string)
  {
    exists i :: OccursAt(s, w, i)
  }

  lemma OccursAtShift(s: string, w: string, i: int)
    requires |s| > 0 && 0 <= i
    ensures OccursAt(s[1..], w, i) <==> OccursAt(s, w, i + 1)
  {
    if i + 1 + |w| <= |s| {
      assert s[1..][i..i + |w|] == s[i + 1..i + 1 + |w|];
    }
  }

  /** Substring search, scanning left to right. */
  function Contains(s: string, w: string): (r: bool)
    ensures r <==> Occurs(s, w)
    decreases |s|
  {
    if |w| > |s| then
      assert forall i :: !OccursAt(s, w, i);
      false
    else if s[..|w|] == w then
      assert OccursAt(s, w, 0);
      true
    else
      var r := Contains(s[1..], w);
      if r then
        var i :| OccursAt(s[1..], w, i);
        OccursAtShift(s, w, i);
        true
      else
        assert forall i :: OccursAt(s, w, i) ==> i > 0;
        forall i | OccursAt(s, w, i) ensures false {
          OccursAtShift(s, w, i - 1);
        }
        false
  }

  /** An occurrence inside either part is an occurrence in the concatenation. */
  lemma OccursInConcat(a: string, b: string, w: string)
    requires Occurs(a, w) || Occurs(b, w)
    ensures Occurs(a + b, w)
  {
    if Occurs(a, w) {
      var i :| OccursAt(a, w, i);
      assert (a + b)[i..i + |w|] == a[i..i + |w|];
      assert OccursAt(a + b, w, i);
    } else {
      var i :| OccursAt(b, w, i);
      assert (a + b)[|a| + i..|a| + i + |w|] == b[i..i + |w|];
      assert OccursAt(a + b, w, |a| + i);
    }
  }

  /* ---------------------------------------------------------------------
   * Joining
   * ------------------------------------------------------------------- */

  /** `sep.join(xs)`. */
  function Join(xs: seq<string>, sep: string): (r: string)
    ensures |xs| == 0 ==> r == ""
    ensures |xs| == 1 ==> r == xs[0]
    decreases |xs|
  {
    if |xs| == 0 then ""
    else if |xs| == 1 then xs[0]
    else Join(xs[..|xs| - 1], sep) + sep + xs[|xs| - 1]
  }

  /** The joined string is empty only when every part is empty and no
      separator was placed, so one non-empty part makes it non-empty. */
  lemma {:induction false} JoinNonEmpty(xs: seq<string>, sep: string, k: int)
    requires 0 <= k < |xs| && xs[k] != ""
    ensures Join(xs, sep) != ""
    decreases |xs|
  {
    if |xs| >= 2 {
      if k < |xs| - 1 {
        JoinNonEmpty(xs[..|xs| - 1], sep, k);
      }
    }
  }
}
