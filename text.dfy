/**
 * String primitives with the semantics of the Python built-ins the core
 * uses: `str.split`, `str.join`, `str.strip`, `str.replace`, `str.startswith`,
 * the `in` substring test, `encode('latin-1', 'replace')` and decimal
 * formatting of a number. Strings are sequences of Unicode code points,
 * as in Python 3.
 */
module Text {

  /** Python's `str.isspace()` for a single code point. */
  predicate IsSpace(c: char) {
    || c == ' '
    || ('\t' <= c <= '\r')
    || ('\U{1c}' <= c <= '\U{1f}')
    || c == '\U{85}' || c == '\U{a0}' || c == '\U{1680}'
    || ('\U{2000}' <= c <= '\U{200a}')
    || c == '\U{2028}' || c == '\U{2029}' || c == '\U{202f}' || c == '\U{205f}' || c == '\U{3000}'
  }

  /** No whitespace at either end: what `strip()` produces. */
  predicate IsStripped(s: string) {
    s == [] || (!IsSpace(s[0]) && !IsSpace(s[|s| - 1]))
  }

  /** Every code point fits in one Latin-1 byte. */
  predicate IsLatin1(s: string) {
    forall i :: 0 <= i < |s| ==> s[i] as int <= 255
  }

  predicate StartsWith(s: string, prefix: string) {
    |prefix| <= |s| && s[..|prefix|] == prefix
  }

  /** The two halves of a concatenation can be sliced back out. */
  lemma AppendSlices(a: string, b: string)
    ensures StartsWith(a + b, a) && (a + b)[|a|..] == b
  {
  }

  /** Python's `sub in s`. */
  predicate Contains(s: string, sub: string)
    decreases |s|
  {
    StartsWith(s, sub) || (s != [] && Contains(s[1..], sub))
  }

  // ---------------------------------------------------------------- strip

  /** Drops leading whitespace (`lstrip()`). */
  function TrimStart(s: string): (r: string)
    ensures |r| <= |s|
    ensures r != [] ==> !IsSpace(r[0])
  {
    if s != [] && IsSpace(s[0]) then TrimStart(s[1..]) else s
  }

  /** What `lstrip()` keeps is a suffix, and what it drops is whitespace. */
  lemma {:induction false} TrimStartSpaces(s: string)
    ensures TrimStart(s) == s[|s| - |TrimStart(s)|..]
    ensures forall i :: 0 <= i < |s| - |TrimStart(s)| ==> IsSpace(s[i])
  {
    if s != [] && IsSpace(s[0]) {
      TrimStartSpaces(s[1..]);
      assert s[1..][|s| - 1 - |TrimStart(s)|..] == s[|s| - |TrimStart(s)|..];
      forall i | 1 <= i < |s| - |TrimStart(s)| ensures IsSpace(s[i]) {
        assert s[i] == s[1..][i - 1];
      }
    }
  }

  /** Drops trailing whitespace (`rstrip()`). */
  function TrimEnd(s: string): (r: string)
    ensures |r| <= |s|
    ensures r != [] ==> !IsSpace(r[|r| - 1])
  {
    if s != [] && IsSpace(s[|s| - 1]) then TrimEnd(s[..|s| - 1]) else s
  }

  /** What `rstrip()` keeps is a prefix, and what it drops is whitespace. */
  lemma {:induction false} TrimEndSpaces(s: string)
    ensures TrimEnd(s) == s[..|TrimEnd(s)|]
    ensures forall i :: |TrimEnd(s)| <= i < |s| ==> IsSpace(s[i])
  {
    if s != [] && IsSpace(s[|s| - 1]) {
      TrimEndSpaces(s[..|s| - 1]);
      assert s[..|s| - 1][..|TrimEnd(s)|] == s[..|TrimEnd(s)|];
      forall i | |TrimEnd(s)| <= i < |s| - 1 ensures IsSpace(s[i]) {
        assert s[i] == s[..|s| - 1][i];
      }
    }
  }

  /** Python's `str.strip()`: drops whitespace at both ends. */
  function Strip(s: string): (r: string)
    ensures IsStripped(r)
  {
    var t := TrimStart(s);
    var r := TrimEnd(t);
    TrimEndSpaces(t);
    assert r != [] ==> r[0] == t[0];
    r
  }

  /**
   * What `strip()` keeps is the middle slice of `s` that starts at the
   * first non-whitespace character; everything cut off is whitespace.
   */
  lemma StripSlice(s: string)
    ensures var r := Strip(s);
            var lo := |s| - |TrimStart(s)|;
            && lo + |r| <= |s| && r == s[lo..lo + |r|]
            && (forall i :: 0 <= i < lo ==> IsSpace(s[i]))
            && (forall i :: lo + |r| <= i < |s| ==> IsSpace(s[i]))
  {
    var t := TrimStart(s);
    var r := TrimEnd(t);
    var lo := |s| - |t|;
    assert r == s[lo..lo + |r|] by {
      TrimStartSpaces(s);
      TrimEndSpaces(t);
      assert t == s[lo..] && r == t[..|r|];
    }
    assert forall i :: 0 <= i < lo ==> IsSpace(s[i]) by {
      TrimStartSpaces(s);
    }
    forall i | lo + |r| <= i < |s| ensures IsSpace(s[i]) {
      TrimStartSpaces(s);
      TrimEndSpaces(t);
      assert s[i] == t[i - lo];
    }
  }

  /** Stripping a string with no whitespace at its ends changes nothing. */
  lemma StripKeepsStripped(s: string)
    requires IsStripped(s)
    ensures Strip(s) == s
  {
    assert TrimStart(s) == s;
    assert TrimEnd(s) == s;
  }

  /** Strip only removes characters. */
  lemma StripChars(s: string, c: char)
    requires c in Strip(s)
    ensures c in s
  {
    var r := Strip(s);
    var lo := |s| - |TrimStart(s)|;
    StripSlice(s);
    var k :| 0 <= k < |r| && r[k] == c;
    assert s[lo + k] == c;
  }

  // ---------------------------------------------------------------- split and join

  /**
   * Python's `s.split(d)` for a one-character separator: the maximal
   * pieces between separators, always at least one (`"".split(d) == [""]`).
   */
  function Split(s: string, d: char): (r: seq<string>)
    ensures |r| >= 1
    ensures forall k :: 0 <= k < |r| ==> d !in r[k]
    decreases |s|
  {
    if s == [] then [""]
    else
      var rest := Split(s[1..], d);
      if s[0] == d then [""] + rest else [[s[0]] + rest[0]] + rest[1..]
  }

  /** Python's `sep.join(parts)`. */
  function Join(sep: string, parts: seq<string>): string
  {
    if parts == [] then ""
    else if |parts| == 1 then parts[0]
    else parts[0] + sep + Join(sep, parts[1..])
  }

  /** Joining the pieces of a split with the same separator gives back the string. */
  lemma {:induction false} JoinSplit(s: string, d: char)
    ensures Join([d], Split(s, d)) == s
    decreases |s|
  {
    if s != [] {
      var rest := Split(s[1..], d);
      JoinSplit(s[1..], d);
      if s[0] != d && |rest| > 1 {
        assert Join([d], rest) == rest[0] + [d] + Join([d], rest[1..]);
      }
    }
  }

  /** A string without the separator is one piece. */
  lemma {:induction false} SplitWithout(s: string, d: char)
    requires d !in s
    ensures Split(s, d) == [s]
    decreases |s|
  {
    if s != [] {
      assert s[0] in s;
      assert forall c :: c in s[1..] ==> c in s;
      SplitWithout(s[1..], d);
      assert Split(s, d) == [[s[0]] + s[1..]];
      assert [s[0]] + s[1..] == s;
    }
  }

  /** Splitting distributes over a separator between two strings. */
  lemma {:induction false} SplitAround(a: string, b: string, d: char)
    ensures Split(a + [d] + b, d) == Split(a, d) + Split(b, d)
    decreases |a|
  {
    if a == [] {
      assert a + [d] + b == [d] + b;
      assert ([d] + b)[1..] == b;
    } else {
      assert (a + [d] + b)[0] == a[0];
      assert (a + [d] + b)[1..] == a[1..] + [d] + b;
      SplitAround(a[1..], b, d);
    }
  }

  /**
   * Splitting a join of separator-free pieces gives back the pieces: the
   * partner of `JoinSplit` on the other side of the round trip.
   */
  lemma {:induction false} SplitJoin(parts: seq<string>, d: char)
    requires parts != []
    requires forall k :: 0 <= k < |parts| ==> d !in parts[k]
    ensures Split(Join([d], parts), d) == parts
    decreases |parts|
  {
    SplitWithout(parts[0], d);
    if |parts| > 1 {
      SplitJoin(parts[1..], d);
      SplitAround(parts[0], Join([d], parts[1..]), d);
    }
  }

  // ---------------------------------------------------------------- replace

  /**
   * Python's `s.replace(pat, "")`: scans left to right and deletes each
   * non-overlapping occurrence of `pat`.
   */
  function RemoveAll(s: string, pat: string): (r: string)
    requires pat != []
    ensures |r| <= |s|
    ensures forall c :: c in r ==> c in s
    decreases |s|
  {
    if |s| < |pat| then s
    else if s[..|pat|] == pat then RemoveAll(s[|pat|..], pat)
    else [s[0]] + RemoveAll(s[1..], pat)
  }

  /** A string that does not contain the pattern is returned unchanged. */
  lemma {:induction false} RemoveAllAbsent(s: string, pat: string)
    requires pat != [] && !Contains(s, pat)
    ensures RemoveAll(s, pat) == s
    decreases |s|
  {
    if |s| >= |pat| {
      RemoveAllAbsent(s[1..], pat);
    }
  }

  /** A string that does not contain the first character of `sub` does not contain `sub`. */
  lemma {:induction false} NotContainsFirst(s: string, sub: string)
    requires sub != [] && sub[0] !in s
    ensures !Contains(s, sub)
    decreases |s|
  {
    if s != [] {
      assert s[0] in s;
      NotContainsFirst(s[1..], sub);
    }
  }

  /** A prefix free of the pattern's first character is kept as it is. */
  lemma {:induction false} RemoveAllKeepsPrefix(a: string, b: string, pat: string)
    requires pat != [] && pat[0] !in a
    ensures RemoveAll(a + b, pat) == a + RemoveAll(b, pat)
    decreases |a|
  {
    if a == [] {
      assert a + b == b;
    } else {
      assert (a + b)[1..] == a[1..] + b;
      assert a[0] in a;
      assert forall c :: c in a[1..] ==> c in a;
      if |a + b| >= |pat| {
        assert (a + b)[..|pat|][0] != pat[0];
        RemoveAllKeepsPrefix(a[1..], b, pat);
        assert a + RemoveAll(b, pat) == [a[0]] + (a[1..] + RemoveAll(b, pat));
      }
    }
  }

  // ---------------------------------------------------------------- latin-1

  /**
   * `s.encode('latin-1', 'replace').decode('latin-1')`: code points up to
   * 255 are kept, every other one becomes `?`.
   */
  function Latin1Replace(s: string): (r: string)
    ensures |r| == |s|
    ensures IsLatin1(r)
  {
    if s == [] then []
    else Latin1Replace(s[..|s| - 1]) + [if s[|s| - 1] as int <= 255 then s[|s| - 1] else '?']
  }

  /** Each code point is kept when it fits in a byte and becomes `?` otherwise. */
  lemma {:induction false} Latin1ReplaceAt(s: string)
    ensures forall i :: 0 <= i < |s| ==> Latin1Replace(s)[i] == if s[i] as int <= 255 then s[i] else '?'
  {
    if s != [] {
      var p := s[..|s| - 1];
      Latin1ReplaceAt(p);
      forall i | 0 <= i < |s| - 1
        ensures Latin1Replace(s)[i] == if s[i] as int <= 255 then s[i] else '?'
      {
        assert Latin1Replace(s)[i] == Latin1Replace(p)[i];
        assert s[i] == p[i];
      }
    }
  }

  /** Replacement keeps a stripped string stripped: `?` is not whitespace. */
  lemma Latin1ReplaceStripped(s: string)
    requires IsStripped(s)
    ensures IsStripped(Latin1Replace(s))
  {
    Latin1ReplaceAt(s);
  }

  /** A string that is already Latin-1 is left as it is. */
  lemma Latin1ReplaceKeeps(s: string)
    requires IsLatin1(s)
    ensures Latin1Replace(s) == s
  {
    var r := Latin1Replace(s);
    Latin1ReplaceAt(s);
    forall i | 0 <= i < |s| ensures r[i] == s[i] {
      assert s[i] as int <= 255;
    }
  }

  /** Every character of the replaced string is from the input or is `?`. */
  lemma Latin1ReplaceChars(s: string, c: char)
    requires c in Latin1Replace(s)
    ensures c in s || c == '?'
  {
    Latin1ReplaceAt(s);
    var k :| 0 <= k < |s| && Latin1Replace(s)[k] == c;
  }

  // ---------------------------------------------------------------- decimal numbers

  /** Python's `str(n)` for a natural number: its decimal digits, without leading zeros. */
  function Decimal(n: nat): (r: string)
    ensures r != []
    ensures forall i :: 0 <= i < |r| ==> '0' <= r[i] <= '9'
    ensures r[0] == '0' ==> n == 0
  {
    if n < 10 then [('0' as int + n) as char]
    else Decimal(n / 10) + [('0' as int + n % 10) as char]
  }

  /** The number a string of decimal digits denotes. */
  function DecimalValue(s: string): nat
    requires forall i :: 0 <= i < |s| ==> '0' <= s[i] <= '9'
  {
    if s == [] then 0
    else DecimalValue(s[..|s| - 1]) * 10 + (s[|s| - 1] as int - '0' as int)
  }

  /** Reading back the digits gives the number: `int(str(n)) == n`. */
  lemma {:induction false} DecimalRoundTrip(n: nat)
    ensures DecimalValue(Decimal(n)) == n
  {
    if n >= 10 {
      DecimalRoundTrip(n / 10);
      var r := Decimal(n);
      assert r[..|r| - 1] == Decimal(n / 10);
    }
  }

  /** Different numbers are written differently. */
  lemma DecimalInjective(m: nat, n: nat)
    requires Decimal(m) == Decimal(n)
    ensures m == n
  {
    DecimalRoundTrip(m);
    DecimalRoundTrip(n);
  }
}
