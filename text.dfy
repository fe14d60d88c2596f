/** The .NET string operations the extractor relies on, with ordinal
    (character-by-character) comparison. */
module Text {

  /** A regular-expression word character `\w`, restricted to ASCII. */
  predicate IsWordChar(c: char) {
    ('a' <= c <= 'z') || ('A' <= c <= 'Z') || ('0' <= c <= '9') || c == '_'
  }

  /** `s.StartsWith(prefix)`. */
  predicate StartsWith(s: string, prefix: string) {
    |prefix| <= |s| && s[..|prefix|] == prefix
  }

  /** `pattern` occurs in `s` starting at position `i`. */
  predicate OccursAt(s: string, pattern: string, i: int) {
    0 <= i && i + |pattern| <= |s| && s[i..i + |pattern|] == pattern
  }

  /** `s.Contains(sub)`. */
  predicate Contains(s: string, sub: string) {
    exists i :: 0 <= i <= |s| && OccursAt(s, sub, i)
  }

  /** Upper-casing of one character (ASCII letters only). */
  function UpperChar(c: char): (u: char)
    ensures 'a' <= c <= 'z' ==> u as int == c as int - 32
    ensures !('a' <= c <= 'z') ==> u == c
    ensures !('a' <= u <= 'z')
  {
    if 'a' <= c <= 'z' then (c as int - 32) as char else c
  }

  /** `s.ToUpper()`. */
  function ToUpper(s: string): (r: string)
    ensures |r| == |s|
    ensures forall i :: 0 <= i < |s| ==> r[i] == UpperChar(s[i])
  {
    seq(|s|, i requires 0 <= i < |s| => UpperChar(s[i]))
  }

  /** No lower-case ASCII letter occurs. */
  predicate IsUpperCase(s: string) {
    forall i :: 0 <= i < |s| ==> !('a' <= s[i] <= 'z')
  }

  /** Upper-casing an upper-case string changes nothing. */
  lemma ToUpperOfUpperCase(s: string)
    requires IsUpperCase(s)
    ensures ToUpper(s) == s
  {
  }

  /** `s.Replace(pattern, replacement)`: every non-overlapping occurrence of
      `pattern`, found left to right, is replaced. */
  function Replace(s: string, pattern: string, replacement: string): string
    requires |pattern| > 0
    decreases |s|
  {
    if |s| < |pattern| then s
    else if s[..|pattern|] == pattern then replacement + Replace(s[|pattern|..], pattern, replacement)
    else [s[0]] + Replace(s[1..], pattern, replacement)
  }

  /** `s.LastIndexOf(pattern, start)`: the last position at which `pattern`
      occurs lying wholly within `s[..start + 1]`, or -1. */
  function LastIndexOf(s: string, pattern: string, start: nat): (r: int)
    requires |pattern| > 0 && start < |s|
    ensures -1 <= r
    ensures r >= 0 ==> r + |pattern| <= start + 1 && OccursAt(s, pattern, r)
    ensures forall q :: r < q && q + |pattern| <= start + 1 ==> !OccursAt(s, pattern, q)
  {
    LastIndexAtOrBefore(s, pattern, start + 1 - |pattern|)
  }

  /** The last occurrence of `pattern` starting at or before `q`, or -1. */
  function LastIndexAtOrBefore(s: string, pattern: string, q: int): (r: int)
    requires q + |pattern| <= |s|
    ensures -1 <= r <= q || (q < 0 && r == -1)
    ensures r >= 0 ==> OccursAt(s, pattern, r)
    ensures forall k :: r < k <= q ==> !OccursAt(s, pattern, k)
    decreases q + 1
  {
    if q < 0 then -1
    else if OccursAt(s, pattern, q) then q
    else LastIndexAtOrBefore(s, pattern, q - 1)
  }

  /** Replacing a pattern that does not occur changes nothing. */
  lemma {:induction false} ReplaceAbsent(s: string, pattern: string, replacement: string)
    requires |pattern| > 0 && !Contains(s, pattern)
    ensures Replace(s, pattern, replacement) == s
    decreases |s|
  {
    if |s| >= |pattern| {
      assert !OccursAt(s, pattern, 0);
      assert s[..|pattern|] == s[0..|pattern|];
      forall i | 0 <= i <= |s[1..]| ensures !OccursAt(s[1..], pattern, i) {
        assert !OccursAt(s, pattern, i + 1);
        if i + |pattern| <= |s[1..]| {
          assert s[1..][i..i + |pattern|] == s[i + 1..i + 1 + |pattern|];
        }
      }
      ReplaceAbsent(s[1..], pattern, replacement);
    }
  }

  /** When no occurrence of the pattern straddles the end of `s`,
      replacing in `s + t` is replacing in each part. */
  lemma {:induction false} ReplaceAppend(s: string, t: string, pattern: string, replacement: string)
    requires |pattern| > 0
    requires forall k :: |s| - |pattern| < k < |s| ==> !OccursAt(s + t, pattern, k)
    ensures Replace(s + t, pattern, replacement) == Replace(s, pattern, replacement) + Replace(t, pattern, replacement)
    decreases |s|
  {
    var n := |pattern|;
    var st := s + t;
    if s == [] {
      assert st == t;
    } else if |st| < n {
    } else if OccursAt(st, pattern, 0) {
      assert st[..n] == st[0..n];
      assert s[..n] == st[..n];
      TailHasNoOccurrence(s, t, pattern, n);
      ReplaceAppend(s[n..], t, pattern, replacement);
      ReplaceAppendAtMatch(s, t, pattern, replacement);
    } else {
      assert st[..n] != pattern by { assert st[..n] == st[0..n]; }
      assert |s| >= n ==> s[..n] == st[..n];
      TailHasNoOccurrence(s, t, pattern, 1);
      ReplaceAppend(s[1..], t, pattern, replacement);
      ReplaceAppendElsewhere(s, t, pattern, replacement);
    }
  }

  /** One step of the concatenation rule at an occurrence that starts `s`. */
  lemma ReplaceAppendAtMatch(s: string, t: string, pattern: string, replacement: string)
    requires |pattern| > 0 && |pattern| <= |s| && s[..|pattern|] == pattern
    requires Replace(s[|pattern|..] + t, pattern, replacement)
          == Replace(s[|pattern|..], pattern, replacement) + Replace(t, pattern, replacement)
    ensures Replace(s + t, pattern, replacement) == Replace(s, pattern, replacement) + Replace(t, pattern, replacement)
  {
    var n := |pattern|;
    assert (s + t)[..n] == s[..n];
    assert (s + t)[n..] == s[n..] + t;
  }

  /** One step of the concatenation rule where no occurrence starts. */
  lemma ReplaceAppendElsewhere(s: string, t: string, pattern: string, replacement: string)
    requires |pattern| > 0 && |s| > 0 && |pattern| <= |s + t|
    requires (s + t)[..|pattern|] != pattern
    requires |pattern| <= |s| ==> s[..|pattern|] != pattern
    requires Replace(s[1..] + t, pattern, replacement)
          == Replace(s[1..], pattern, replacement) + Replace(t, pattern, replacement)
    ensures Replace(s + t, pattern, replacement) == Replace(s, pattern, replacement) + Replace(t, pattern, replacement)
  {
    var st := s + t;
    assert st[1..] == s[1..] + t;
    assert st[0] == s[0];
    KeptFirst(st, pattern, replacement);
    KeptFirst(s, pattern, replacement);
    ConsAppend(s[0], Replace(s[1..], pattern, replacement), Replace(t, pattern, replacement),
               Replace(st, pattern, replacement), Replace(s, pattern, replacement),
               Replace(s[1..] + t, pattern, replacement));
  }

  /** Putting a character in front commutes with appending. */
  lemma ConsAppend(c: char, a: string, b: string, whole: string, part: string, tail: string)
    requires whole == [c] + tail && tail == a + b && part == [c] + a
    ensures whole == part + b
  {
  }

  /** Where no occurrence starts, the first character is kept. */
  lemma KeptFirst(s: string, pattern: string, replacement: string)
    requires |pattern| > 0 && |s| > 0
    requires |pattern| <= |s| ==> s[..|pattern|] != pattern
    ensures Replace(s, pattern, replacement) == [s[0]] + Replace(s[1..], pattern, replacement)
  {
    if |s| < |pattern| {
      assert Replace(s[1..], pattern, replacement) == s[1..];
      assert s == [s[0]] + s[1..];
    }
  }

  /** Dropping the first `d` characters of `s` keeps the seam between `s`
      and `t` free of occurrences. */
  lemma TailHasNoOccurrence(s: string, t: string, pattern: string, d: nat)
    requires d <= |s|
    requires forall k :: |s| - |pattern| < k < |s| ==> !OccursAt(s + t, pattern, k)
    ensures (s + t)[d..] == s[d..] + t
    ensures forall k :: |s[d..]| - |pattern| < k < |s[d..]| ==> !OccursAt(s[d..] + t, pattern, k)
  {
    assert (s + t)[d..] == s[d..] + t;
    forall k | |s[d..]| - |pattern| < k < |s[d..]| ensures !OccursAt(s[d..] + t, pattern, k) {
      if OccursAt(s[d..] + t, pattern, k) {
        ShiftedOccurrence(s + t, d, pattern, k);
      }
    }
  }

  /** An occurrence in a suffix is an occurrence in the whole, moved. */
  lemma ShiftedOccurrence(s: string, d: nat, pattern: string, k: nat)
    requires d <= |s| && OccursAt(s[d..], pattern, k)
    ensures OccursAt(s, pattern, k + d)
  {
    assert s[d..][k..k + |pattern|] == s[k + d..k + d + |pattern|];
  }
}
