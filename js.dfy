/**
 * The JavaScript value and string semantics that the controllers, schemas and the
 * performance script rely on: truthiness of optional form fields, the `\s`, `\d` and `\w`
 * character classes, `String.prototype.trim`, `toLowerCase` and `length`.
 */
module Js {

  datatype Option<T> = None | Some(value: T)

  /** `!!v` for an optional string field: `undefined` and `""` are falsy, every other string is truthy. */
  predicate Truthy(o: Option<string>)
  {
    o.Some? && o.value != ""
  }

  /** ECMAScript WhiteSpace and LineTerminator code points: what the regex class `\s` matches
      and what `trim()` strips from both ends. */
  predicate IsSpace(c: char)
  {
    || c == '\t' || c == '\n' || c == '\U{000B}' || c == '\U{000C}' || c == '\r' || c == ' '
    || c == '\U{00A0}' || c == '\U{1680}' || ('\U{2000}' <= c <= '\U{200A}')
    || c == '\U{2028}' || c == '\U{2029}' || c == '\U{202F}' || c == '\U{205F}'
    || c == '\U{3000}' || c == '\U{FEFF}'
  }

  /** The regex class `\d` (ASCII digits only). */
  predicate IsDigit(c: char)
  {
    '0' <= c <= '9'
  }

  /** The regex class `\w`: ASCII letters, digits and underscore. */
  predicate IsWordChar(c: char)
  {
    ('a' <= c <= 'z') || ('A' <= c <= 'Z') || IsDigit(c) || c == '_'
  }

  predicate NoSpace(s: string)
  {
    forall k :: 0 <= k < |s| ==> !IsSpace(s[k])
  }

  predicate AllDigits(s: string)
  {
    forall k :: 0 <= k < |s| ==> IsDigit(s[k])
  }

  predicate EndsWith(s: string, suffix: string)
  {
    |suffix| <= |s| && s[|s| - |suffix|..] == suffix
  }

  /** Number of UTF-16 code units of one code point. */
  function Utf16Units(c: char): nat
  {
    if c as int >= 0x1_0000 then 2 else 1
  }

  /** `s.length`: JavaScript strings count UTF-16 code units, so a code point outside the
      Basic Multilingual Plane counts twice. */
  function JsLength(s: string): (n: nat)
    ensures |s| <= n <= 2 * |s|
    ensures (forall k :: 0 <= k < |s| ==> s[k] as int < 0x1_0000) ==> n == |s|
  {
    if s == [] then 0 else JsLength(s[..|s| - 1]) + Utf16Units(s[|s| - 1])
  }

  lemma {:induction false} JsLengthAppend(a: string, b: string)
    ensures JsLength(a + b) == JsLength(a) + JsLength(b)
    decreases |b|
  {
    if b == [] {
      assert a + b == a;
    } else {
      var b' := b[..|b| - 1];
      assert (a + b)[..|a + b| - 1] == a + b';
      assert (a + b)[|a + b| - 1] == b[|b| - 1];
      JsLengthAppend(a, b');
      assert b[..|b| - 1] == b';
    }
  }

  /** The first index of `c` in `s`, or `|s|` when `c` does not occur (where JavaScript's
      `indexOf` answers -1). */
  function IndexOf(s: string, c: char): (i: nat)
    ensures i <= |s|
    ensures i < |s| ==> s[i] == c
    ensures forall k :: 0 <= k < i ==> s[k] != c
  {
    if s == [] then 0
    else if s[0] == c then 0
    else 1 + IndexOf(s[1..], c)
  }

  /** Number of occurrences of `c` in `s`. */
  function CountChar(s: string, c: char): (n: nat)
    ensures n <= |s|
    ensures n == 0 <==> c !in s
  {
    if s == [] then 0
    else CountChar(s[..|s| - 1], c) + (if s[|s| - 1] == c then 1 else 0)
  }

  /** The number of whitespace characters `s` starts with. */
  function LeadingSpace(s: string): (n: nat)
    ensures n <= |s|
    ensures forall k :: 0 <= k < n ==> IsSpace(s[k])
    ensures n < |s| ==> !IsSpace(s[n])
  {
    if s != [] && IsSpace(s[0]) then 1 + LeadingSpace(s[1..]) else 0
  }

  /** The number of whitespace characters `s` ends with. */
  function TrailingSpace(s: string): (n: nat)
    ensures n <= |s|
    ensures forall k :: |s| - n <= k < |s| ==> IsSpace(s[k])
    ensures n < |s| ==> !IsSpace(s[|s| - 1 - n])
  {
    if s != [] && IsSpace(s[|s| - 1]) then 1 + TrailingSpace(s[..|s| - 1]) else 0
  }

  /** Any count with the defining property of `LeadingSpace` is `LeadingSpace`. */
  lemma LeadingSpaceUnique(s: string, n: nat)
    requires n <= |s|
    requires forall k :: 0 <= k < n ==> IsSpace(s[k])
    requires n < |s| ==> !IsSpace(s[n])
    ensures LeadingSpace(s) == n
  {
  }

  /** Any count with the defining property of `TrailingSpace` is `TrailingSpace`. */
  lemma TrailingSpaceUnique(s: string, n: nat)
    requires n <= |s|
    requires forall k :: |s| - n <= k < |s| ==> IsSpace(s[k])
    requires n < |s| ==> !IsSpace(s[|s| - 1 - n])
    ensures TrailingSpace(s) == n
  {
  }

  /** Where `trim()` stops: the end of the last non-whitespace character, or the start when
      there is none. */
  function TrimEndIndex(s: string): (e: nat)
    ensures LeadingSpace(s) <= e <= |s|
  {
    var a, e := LeadingSpace(s), |s| - TrailingSpace(s);
    if e < a then a else e
  }

  /** `s.trim()`: the leading and the trailing whitespace are removed. */
  function Trim(s: string): string
  {
    s[LeadingSpace(s)..TrimEndIndex(s)]
  }

  /** What `trim()` keeps: the part of the input between its leading and its trailing
      whitespace, with no whitespace at either end; the result is empty exactly when the
      input is all whitespace. */
  lemma TrimShape(s: string)
    ensures var r, a := Trim(s), LeadingSpace(s);
      && a + |r| <= |s| && r == s[a..a + |r|]
      && (forall k :: a + |r| <= k < |s| ==> IsSpace(s[k]))
      && (r != [] ==> !IsSpace(r[0]) && !IsSpace(r[|r| - 1]))
      && (r == [] <==> forall k :: 0 <= k < |s| ==> IsSpace(s[k]))
  {
    var a, e := LeadingSpace(s), TrimEndIndex(s);
    var r := s[a..e];
    if r != [] {
      assert r[0] == s[a] && r[|r| - 1] == s[e - 1];
    }
  }

  /** A string without whitespace is its own trim. */
  lemma TrimNoSpace(s: string)
    requires NoSpace(s)
    ensures Trim(s) == s
  {
    LeadingSpaceUnique(s, 0);
    TrailingSpaceUnique(s, 0);
  }

  /** `trim()` is idempotent. */
  lemma TrimIdempotent(s: string)
    ensures Trim(Trim(s)) == Trim(s)
  {
    var r := Trim(s);
    TrimShape(s);
    LeadingSpaceUnique(r, 0);
    TrailingSpaceUnique(r, 0);
  }

  /** Trimming never lengthens a string, in `length` units. */
  lemma TrimShortens(s: string)
    ensures JsLength(Trim(s)) <= JsLength(s)
  {
    var a, e := LeadingSpace(s), TrimEndIndex(s);
    assert s == s[..a] + (s[a..e] + s[e..]);
    JsLengthAppend(s[..a], s[a..e] + s[e..]);
    JsLengthAppend(s[a..e], s[e..]);
  }

  /** `toLowerCase()` on one code point, for the ASCII letters (see README: other scripts are
      not case-mapped by this model). */
  function LowerChar(c: char): char
  {
    if 'A' <= c <= 'Z' then (c as int + 32) as char else c
  }

  /** `s.toLowerCase()`: every code point lower-cased, nothing added or removed. */
  function ToLower(s: string): (r: string)
    ensures |r| == |s|
    ensures forall k :: 0 <= k < |s| ==> r[k] == LowerChar(s[k])
  {
    seq(|s|, k requires 0 <= k < |s| => LowerChar(s[k]))
  }

  /** Lower-casing is idempotent. */
  lemma ToLowerIdempotent(s: string)
    ensures ToLower(ToLower(s)) == ToLower(s)
  {
    var r := ToLower(s);
    assert forall k :: 0 <= k < |r| ==> ToLower(r)[k] == r[k];
  }

  /** Whitespace is never an upper-case letter: lower-casing keeps every code point's class,
      and so the amount of leading and trailing whitespace. */
  lemma LowerKeepsSpace(s: string)
    ensures forall k :: 0 <= k < |s| ==> (IsSpace(ToLower(s)[k]) <==> IsSpace(s[k]))
    ensures LeadingSpace(ToLower(s)) == LeadingSpace(s)
    ensures TrailingSpace(ToLower(s)) == TrailingSpace(s)
  {
    var l := ToLower(s);
    assert forall k :: 0 <= k < |s| ==> (IsSpace(l[k]) <==> IsSpace(s[k]));
    LeadingSpaceUnique(l, LeadingSpace(s));
    TrailingSpaceUnique(l, TrailingSpace(s));
  }

  /** Lower-casing and trimming commute, so the order in which a schema applies its
      `lowercase` and `trim` setters does not matter. */
  lemma LowerTrimCommute(s: string)
    ensures ToLower(Trim(s)) == Trim(ToLower(s))
  {
    var l := ToLower(s);
    var a, e := LeadingSpace(s), TrimEndIndex(s);
    assert LeadingSpace(l) == a && TrimEndIndex(l) == e by {
      LowerKeepsSpace(s);
    }
    var t := s[a..e];
    var r1, r2 := ToLower(t), l[a..e];
    forall k | 0 <= k < |t| ensures r1[k] == r2[k] {
      assert t[k] == s[a + k];
    }
    assert r1 == r2;
  }
}
