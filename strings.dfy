/** Character classes and string operations used by both implementations of
    the agent: ASCII digits, decimal rendering, the two notions of
    whitespace (Java's `trim` and Python's `strip`), quote removal and
    upper-casing. A string is a sequence of Unicode scalar values. */
module Strings {

  datatype Option<T> = None | Some(value: T)

  predicate StartsWith(s: string, prefix: string) {
    |prefix| <= |s| && s[..|prefix|] == prefix
  }

  /** The regular-expression class `\d` of both languages' default mode: ASCII digits only. */
  predicate IsDigit(c: char) {
    '0' <= c <= '9'
  }

  /** `\d+`: a non-empty run of ASCII digits. */
  predicate IsDigits(s: string) {
    |s| > 0 && forall i :: 0 <= i < |s| ==> IsDigit(s[i])
  }

  function DigitValue(c: char): nat
    requires IsDigit(c)
  {
    c as int - '0' as int
  }

  function DigitChar(d: nat): (c: char)
    requires d < 10
    ensures IsDigit(c) && DigitValue(c) == d
  {
    ('0' as int + d) as char
  }

  /** The number a string of decimal digits denotes, most significant digit first. */
  function DigitsValue(s: string): nat
    requires forall i :: 0 <= i < |s| ==> IsDigit(s[i])
  {
    if s == [] then 0 else 10 * DigitsValue(s[..|s| - 1]) + DigitValue(s[|s| - 1])
  }

  /** Decimal rendering of a natural number, as `"Q" + i` renders the counter in Java
      and an f-string renders it in Python. */
  function NatToString(n: nat): (s: string)
    ensures IsDigits(s) && DigitsValue(s) == n
    ensures |s| == 1 <==> n < 10
    ensures |s| == 2 <==> 10 <= n < 100
  {
    if n < 10 then [DigitChar(n)]
    else
      var s := NatToString(n / 10) + [DigitChar(n % 10)];
      assert s[..|s| - 1] == NatToString(n / 10);
      s
  }

  /** A digit string with no leading zero denotes a positive number. */
  lemma {:induction false} LeadingDigitPositive(s: string)
    requires IsDigits(s) && s[0] != '0'
    ensures DigitsValue(s) >= 1
  {
    if |s| > 1 {
      var p := s[..|s| - 1];
      assert p[0] == s[0];
      LeadingDigitPositive(p);
    }
  }

  /** Reading a digit string without a leading zero and rendering the number gives the string
      back. */
  lemma {:induction false} NatToStringOfDigits(s: string)
    requires IsDigits(s) && (|s| > 1 ==> s[0] != '0')
    ensures NatToString(DigitsValue(s)) == s
  {
    var last := s[|s| - 1];
    if |s| == 1 {
      assert DigitsValue(s) == DigitValue(last) by {
        assert s[..0] == [];
      }
      assert DigitChar(DigitValue(last)) == last;
    } else {
      var p := s[..|s| - 1];
      assert p[0] == s[0];
      LeadingDigitPositive(p);
      NatToStringOfDigits(p);
      var n := DigitsValue(s);
      assert n == 10 * DigitsValue(p) + DigitValue(last);
      assert n / 10 == DigitsValue(p) && n % 10 == DigitValue(last);
      assert DigitChar(DigitValue(last)) == last;
      assert s == p + [last];
    }
  }

  /** A rendered number has no leading zero, unless it is "0" itself. */
  lemma {:induction false} NatToStringNoLeadingZero(n: nat)
    ensures NatToString(n) == "0" || NatToString(n)[0] != '0'
  {
    if n >= 10 {
      NatToStringNoLeadingZero(n / 10);
    }
  }

  /** Characters Java's `String.trim` removes: every code point up to and including space. */
  predicate JavaSpace(c: char) {
    c <= ' '
  }

  /** Characters Python's argument-less `str.strip` removes: those for which `str.isspace` holds. */
  predicate PySpace(c: char) {
    || '\t' <= c <= '\r'
    || '\U{1C}' <= c <= ' '
    || c == '\U{85}' || c == '\U{A0}' || c == '\U{1680}'
    || '\U{2000}' <= c <= '\U{200A}'
    || c == '\U{2028}' || c == '\U{2029}' || c == '\U{202F}' || c == '\U{205F}' || c == '\U{3000}'
  }

  predicate IsQuote(c: char) {
    c == '"'
  }

  /** Drops the longest prefix made of characters satisfying `strip`. */
  function TrimStart(s: string, strip: char -> bool): (t: string)
    ensures |t| <= |s| && t == s[|s| - |t|..]
    ensures forall i :: 0 <= i < |s| - |t| ==> strip(s[i])
    ensures t != [] ==> !strip(t[0])
  {
    if s != [] && strip(s[0]) then
      var t := TrimStart(s[1..], strip);
      TrimStartStep(s, s[1..], t, strip);
      t
    else s
  }

  /** One step of `TrimStart`: dropping a strippable first character keeps the result a
      suffix preceded only by strippable characters. */
  lemma TrimStartStep(s: string, rest: string, t: string, strip: char -> bool)
    requires s != [] && strip(s[0]) && rest == s[1..]
    requires |t| <= |rest| && t == rest[|rest| - |t|..]
    requires forall i :: 0 <= i < |rest| - |t| ==> strip(rest[i])
    ensures t == s[|s| - |t|..]
    ensures forall i :: 0 <= i < |s| - |t| ==> strip(s[i])
  {
    forall i | 0 <= i < |s| - |t| ensures strip(s[i]) {
      if i > 0 {
        assert s[i] == rest[i - 1];
      }
    }
  }

  /** Drops the longest suffix made of characters satisfying `strip`. */
  function TrimEnd(s: string, strip: char -> bool): (t: string)
    ensures |t| <= |s| && t == s[..|t|]
    ensures forall i :: |t| <= i < |s| ==> strip(s[i])
    ensures t != [] ==> !strip(t[|t| - 1])
  {
    if s != [] && strip(s[|s| - 1]) then
      var t := TrimEnd(s[..|s| - 1], strip);
      TrimEndStep(s, s[..|s| - 1], t, strip);
      t
    else s
  }

  /** One step of `TrimEnd`: dropping a strippable last character keeps the result a prefix
      followed only by strippable characters. */
  lemma TrimEndStep(s: string, front: string, t: string, strip: char -> bool)
    requires s != [] && strip(s[|s| - 1]) && front == s[..|s| - 1]
    requires |t| <= |front| && t == front[..|t|]
    requires forall i :: |t| <= i < |front| ==> strip(front[i])
    ensures t == s[..|t|]
    ensures forall i :: |t| <= i < |s| ==> strip(s[i])
  {
    forall i | |t| <= i < |s| ensures strip(s[i]) {
      if i < |s| - 1 {
        assert s[i] == front[i];
      }
    }
  }

  /** Both ends trimmed: Java `trim()` with `JavaSpace`, Python `strip()` with `PySpace`,
      Python `strip('"')` with `IsQuote`. */
  function Trim(s: string, strip: char -> bool): string {
    TrimEnd(TrimStart(s, strip), strip)
  }

  /** A string neither of whose ends a trim would touch is its own trim. */
  lemma TrimOfTrimmed(s: string, strip: char -> bool)
    requires s != [] ==> !strip(s[0]) && !strip(s[|s| - 1])
    ensures Trim(s, strip) == s
  {
  }

  /** Every character of a suffix or a prefix is a character of the whole. */
  lemma SliceMembers(s: string, k: nat)
    requires k <= |s|
    ensures forall c :: c in s[k..] ==> c in s
    ensures forall c :: c in s[..k] ==> c in s
  {
    assert s == s[..k] + s[k..];
  }

  /** A trim adds no character and leaves no strippable character at either end. */
  lemma TrimShape(s: string, strip: char -> bool)
    ensures forall c :: c in Trim(s, strip) ==> c in s
    ensures Trim(s, strip) != [] ==> !strip(Trim(s, strip)[0]) && !strip(Trim(s, strip)[|Trim(s, strip)| - 1])
  {
    var u := TrimStart(s, strip);
    var t := TrimEnd(u, strip);
    SliceMembers(s, |s| - |u|);
    SliceMembers(u, |t|);
    if t != [] {
      assert t[0] == u[0];
    }
  }

  /** A string made only of strippable characters trims to nothing. */
  lemma {:induction false} TrimStartAllStrippable(w: string, strip: char -> bool)
    requires forall i :: 0 <= i < |w| ==> strip(w[i])
    ensures TrimStart(w, strip) == []
  {
    if w != [] {
      TrimStartAllStrippable(w[1..], strip);
    }
  }

  /** Leading strippable characters do not change the trim. */
  lemma {:induction false} TrimSkipsLeading(w: string, s: string, strip: char -> bool)
    requires forall i :: 0 <= i < |w| ==> strip(w[i])
    ensures Trim(w + s, strip) == Trim(s, strip)
  {
    TrimStartConcat(w, s, strip);
    TrimStartAllStrippable(w, strip);
  }

  /** Trimming the front of a concatenation: the second part survives whole once the first
      part has a character that stops the trim. */
  lemma {:induction false} TrimStartConcat(s: string, w: string, strip: char -> bool)
    ensures TrimStart(s + w, strip) == if TrimStart(s, strip) == [] then TrimStart(w, strip) else TrimStart(s, strip) + w
  {
    if s != [] {
      assert (s + w)[0] == s[0];
      if strip(s[0]) {
        assert (s + w)[1..] == s[1..] + w;
        assert TrimStart(s + w, strip) == TrimStart(s[1..] + w, strip);
        assert TrimStart(s, strip) == TrimStart(s[1..], strip);
        TrimStartConcat(s[1..], w, strip);
      } else {
        assert TrimStart(s + w, strip) == s + w;
      }
    } else {
      assert s + w == w;
    }
  }

  /** Trailing strippable characters do not change what remains after trimming the end. */
  lemma {:induction false} TrimEndConcat(s: string, w: string, strip: char -> bool)
    requires forall i :: 0 <= i < |w| ==> strip(w[i])
    ensures TrimEnd(s + w, strip) == TrimEnd(s, strip)
  {
    if w != [] {
      var sw := s + w;
      assert sw[|sw| - 1] == w[|w| - 1];
      assert sw[..|sw| - 1] == s + w[..|w| - 1];
      assert TrimEnd(sw, strip) == TrimEnd(s + w[..|w| - 1], strip);
      TrimEndConcat(s, w[..|w| - 1], strip);
    } else {
      assert s + w == s;
    }
  }

  /** Trailing strippable characters do not change the trim. */
  lemma TrimSkipsTrailing(s: string, w: string, strip: char -> bool)
    requires forall i :: 0 <= i < |w| ==> strip(w[i])
    ensures Trim(s + w, strip) == Trim(s, strip)
  {
    TrimStartConcat(s, w, strip);
    if TrimStart(s, strip) == [] {
      TrimStartAllStrippable(w, strip);
    } else {
      TrimEndConcat(TrimStart(s, strip), w, strip);
    }
  }

  /** Strippable padding on both sides does not change the trim. */
  lemma TrimIgnoresPadding(lead: string, s: string, trail: string, strip: char -> bool)
    requires forall i :: 0 <= i < |lead| ==> strip(lead[i])
    requires forall i :: 0 <= i < |trail| ==> strip(trail[i])
    ensures Trim(lead + s + trail, strip) == Trim(s, strip)
  {
    assert lead + s + trail == lead + (s + trail);
    TrimSkipsLeading(lead, s + trail, strip);
    TrimSkipsTrailing(s, trail, strip);
  }

  /** Java's `replaceAll("\"", "")` generalised to any character: every occurrence of `c` removed,
      everything else kept in order. */
  function RemoveAll(s: string, c: char): string {
    if s == [] then []
    else (if s[0] == c then [] else [s[0]]) + RemoveAll(s[1..], c)
  }

  /** The removal leaves no `c`, keeps every other character as often as it occurs, and
      changes nothing in a string without `c`. */
  lemma {:induction false} RemoveAllSpec(s: string, c: char)
    ensures c !in RemoveAll(s, c)
    ensures forall x :: x != c ==> multiset(RemoveAll(s, c))[x] == multiset(s)[x]
    ensures c !in s ==> RemoveAll(s, c) == s
  {
    if s != [] {
      RemoveAllSpec(s[1..], c);
      assert s == [s[0]] + s[1..];
    }
  }

  /** Upper-case mapping of one character: ASCII letters, and U+017F (long s) to 'S' as Java's
      `toUpperCase` and Python's `upper` both do; other characters are left as they are. */
  function UpperChar(c: char): char {
    if 'a' <= c <= 'z' then (c as int - 32) as char
    else if c == '\U{17F}' then 'S'
    else c
  }

  function Upper(s: string): string {
    seq(|s|, i requires 0 <= i < |s| => UpperChar(s[i]))
  }
}
