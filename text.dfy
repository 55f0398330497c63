/**
 * Text handling the routes rely on: Python's `str.strip()` applied to form
 * fields, and the ordering SQLite uses for `ORDER BY` on text columns (the
 * default BINARY collation, which on UTF-8 text orders strings
 * lexicographically by code point).
 */
module Text {

  /** Python's `str.isspace()` for one character: the characters `strip()` removes. */
  predicate IsSpace(c: char) {
    var n := c as int;
    (0x09 <= n <= 0x0D) || (0x1C <= n <= 0x20) || n == 0x85 || n == 0xA0 ||
    n == 0x1680 || (0x2000 <= n <= 0x200A) || n == 0x2028 || n == 0x2029 ||
    n == 0x202F || n == 0x205F || n == 0x3000
  }

  predicate AllSpace(s: string) {
    forall i :: 0 <= i < |s| ==> IsSpace(s[i])
  }

  /** Neither end of `s` is whitespace: what `strip()` returns. */
  predicate Stripped(s: string) {
    s == [] || (!IsSpace(s[0]) && !IsSpace(s[|s| - 1]))
  }

  /** How many whitespace characters `lstrip()` removes from the front of `s`. */
  function LeadingSpace(s: string): (n: nat)
    ensures n <= |s|
    ensures forall k :: 0 <= k < n ==> IsSpace(s[k])
    ensures n == |s| || !IsSpace(s[n])
  {
    if |s| > 0 && IsSpace(s[0]) then 1 + LeadingSpace(s[1..]) else 0
  }

  /** How many whitespace characters `rstrip()` removes from the end of `s`. */
  function TrailingSpace(s: string): (n: nat)
    ensures n <= |s|
    ensures forall k :: |s| - n <= k < |s| ==> IsSpace(s[k])
    ensures n == |s| || !IsSpace(s[|s| - n - 1])
  {
    if |s| > 0 && IsSpace(s[|s| - 1]) then 1 + TrailingSpace(s[..|s| - 1]) else 0
  }

  /** `strip()`: drops the whitespace at both ends. */
  function Strip(s: string): (r: string)
    ensures Stripped(r) && |r| <= |s|
  {
    var t := s[LeadingSpace(s)..];
    t[..|t| - TrailingSpace(t)]
  }

  /**
   * Whitespace on either side of a stripped string is exactly what `strip()`
   * removes. Every string is such a padded stripped string, so this fixes
   * `Strip` on every input.
   */
  lemma StripPadding(a: string, s: string, b: string)
    requires AllSpace(a) && AllSpace(b) && Stripped(s)
    ensures Strip(a + s + b) == s
  {
    var x := a + s + b;
    if s == [] {
      assert AllSpace(x);
    } else {
      LeadingPadding(a, s + b);
      assert a + s + b == a + (s + b);
      assert x[|a|..] == s + b;
      TrailingPadding(s, b);
    }
  }

  /** Every string is its `strip()` padded with whitespace on either side. */
  lemma StripSplits(x: string) returns (a: string, b: string)
    ensures AllSpace(a) && AllSpace(b) && x == a + Strip(x) + b
  {
    var t;
    a, t := LeadingSplit(x);
    var s;
    s, b := TrailingSplit(t);
    assert s == Strip(x);
    assert a + (s + b) == a + s + b;
  }

  /** `x` is the whitespace `lstrip()` removes followed by what it leaves. */
  lemma LeadingSplit(x: string) returns (a: string, t: string)
    ensures AllSpace(a) && x == a + t && t == x[LeadingSpace(x)..]
  {
    a, t := x[..LeadingSpace(x)], x[LeadingSpace(x)..];
    forall k | 0 <= k < |a| ensures IsSpace(a[k]) { assert a[k] == x[k]; }
  }

  /** `t` is what `rstrip()` leaves followed by the whitespace it removes. */
  lemma TrailingSplit(t: string) returns (s: string, b: string)
    ensures AllSpace(b) && t == s + b && s == t[..|t| - TrailingSpace(t)]
  {
    var m := TrailingSpace(t);
    s, b := t[..|t| - m], t[|t| - m..];
    forall k | 0 <= k < |b| ensures IsSpace(b[k]) { assert b[k] == t[|t| - m + k]; }
  }

  lemma {:induction false} LeadingPadding(a: string, t: string)
    requires AllSpace(a) && (t == [] || !IsSpace(t[0]))
    ensures LeadingSpace(a + t) == |a|
  {
    if a != [] {
      assert (a + t)[1..] == a[1..] + t;
      assert AllSpace(a[1..]) by { forall k | 0 <= k < |a| - 1 ensures IsSpace(a[1..][k]) { assert a[1..][k] == a[k + 1]; } }
      LeadingPadding(a[1..], t);
    } else {
      assert a + t == t;
    }
  }

  lemma {:induction false} TrailingPadding(s: string, b: string)
    requires AllSpace(b) && s != [] && !IsSpace(s[|s| - 1])
    ensures TrailingSpace(s + b) == |b|
  {
    if b != [] {
      assert (s + b)[..|s + b| - 1] == s + b[..|b| - 1];
      TrailingPadding(s, b[..|b| - 1]);
    } else {
      assert s + b == s;
    }
  }

  /** Stripping twice is stripping once. */
  lemma StripIdempotent(s: string)
    ensures Strip(Strip(s)) == Strip(s)
  {
  }

  /** Lexicographic order by code point, the order SQLite's BINARY collation gives UTF-8 text. */
  predicate StrLe(a: string, b: string) {
    a == [] || (b != [] && (a[0] < b[0] || (a[0] == b[0] && StrLe(a[1..], b[1..]))))
  }

  lemma {:induction false} StrLeReflexive(a: string)
    ensures StrLe(a, a)
  {
    if a != [] { StrLeReflexive(a[1..]); }
  }

  lemma {:induction false} StrLeTotal(a: string, b: string)
    ensures StrLe(a, b) || StrLe(b, a)
  {
    if a != [] && b != [] && a[0] == b[0] { StrLeTotal(a[1..], b[1..]); }
  }

  lemma {:induction false} StrLeAntisymmetric(a: string, b: string)
    requires StrLe(a, b) && StrLe(b, a)
    ensures a == b
  {
    if a != [] && b != [] {
      StrLeAntisymmetric(a[1..], b[1..]);
      assert a == [a[0]] + a[1..] && b == [b[0]] + b[1..];
    }
  }

  lemma {:induction false} StrLeTransitive(a: string, b: string, c: string)
    requires StrLe(a, b) && StrLe(b, c)
    ensures StrLe(a, c)
  {
    if a != [] && b != [] && c != [] && a[0] == b[0] && b[0] == c[0] {
      StrLeTransitive(a[1..], b[1..], c[1..]);
    }
  }
}
