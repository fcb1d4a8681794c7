/**
 * The Python `str` methods the recommendation agent applies to the model's
 * reply: `strip()`, `find(c)` and `rfind(c)` for a single character.
 */
module PyStr {

  /** `str.isspace()` for one character: the characters Python treats as whitespace. */
  predicate IsSpace(c: char) {
    || c == ' ' || c == '\t' || c == '\n' || c == '\r'
    || c == '\U{0B}' || c == '\U{0C}'
    || ('\U{1C}' <= c <= '\U{1F}')
    || c == '\U{85}' || c == '\U{A0}' || c == '\U{1680}'
    || ('\U{2000}' <= c <= '\U{200A}')
    || c == '\U{2028}' || c == '\U{2029}' || c == '\U{202F}' || c == '\U{205F}' || c == '\U{3000}'
  }

  /** The number of whitespace characters at the start of `s`. */
  function LeadingSpaces(s: string): (n: nat)
    ensures n <= |s|
    ensures forall k :: 0 <= k < n ==> IsSpace(s[k])
    ensures n < |s| ==> !IsSpace(s[n])
  {
    if s != [] && IsSpace(s[0]) then 1 + LeadingSpaces(s[1..]) else 0
  }

  /** The number of whitespace characters at the end of `s`. */
  function TrailingSpaces(s: string): (n: nat)
    ensures n <= |s|
    ensures forall k :: |s| - n <= k < |s| ==> IsSpace(s[k])
    ensures n < |s| ==> !IsSpace(s[|s| - 1 - n])
  {
    if s != [] && IsSpace(s[|s| - 1]) then 1 + TrailingSpaces(s[..|s| - 1]) else 0
  }

  /**
   * `s.strip()`: `s` without its leading and trailing whitespace. The result
   * is the slice of `s` that starts after the leading whitespace, everything
   * after it is whitespace, and it neither starts nor ends with whitespace.
   */
  function Strip(s: string): (r: string)
    ensures LeadingSpaces(s) + |r| <= |s|
    ensures r == s[LeadingSpaces(s)..LeadingSpaces(s) + |r|]
    ensures forall k :: LeadingSpaces(s) + |r| <= k < |s| ==> IsSpace(s[k])
    ensures r != [] ==> !IsSpace(r[0]) && !IsSpace(r[|r| - 1])
  {
    var rest := s[LeadingSpaces(s)..];
    rest[..|rest| - TrailingSpaces(rest)]
  }

  /** Stripping removes whitespace only: a non-whitespace character occurs in `s.strip()` exactly when it occurs in `s`. */
  lemma StripKeepsNonSpace(s: string, c: char)
    requires !IsSpace(c)
    ensures c in Strip(s) <==> c in s
  {
    var lo, r := LeadingSpaces(s), Strip(s);
    if c in s {
      var k :| 0 <= k < |s| && s[k] == c;
      assert lo <= k < lo + |r|;
      assert r[k - lo] == c;
    }
  }

  /** Stripping twice is stripping once. */
  lemma StripIdempotent(s: string)
    ensures Strip(Strip(s)) == Strip(s)
  {
    var r := Strip(s);
    assert LeadingSpaces(r) == 0;
    if r != [] {
      assert TrailingSpaces(r) == 0;
    }
  }

  /** `s.find(c)`: the first index of `c` in `s`, or -1. */
  function Find(s: string, c: char): (r: int)
    ensures -1 <= r < |s|
    ensures r == -1 ==> forall k :: 0 <= k < |s| ==> s[k] != c
    ensures r >= 0 ==> s[r] == c && forall k :: 0 <= k < r ==> s[k] != c
  {
    FindFrom(s, c, 0)
  }

  /** The first index of `c` in `s` at or after `i`, or -1. */
  function FindFrom(s: string, c: char, i: nat): (r: int)
    requires i <= |s|
    ensures -1 <= r < |s|
    ensures r == -1 ==> forall k :: i <= k < |s| ==> s[k] != c
    ensures r >= 0 ==> i <= r && s[r] == c && forall k :: i <= k < r ==> s[k] != c
    decreases |s| - i
  {
    if i == |s| then -1
    else if s[i] == c then i
    else FindFrom(s, c, i + 1)
  }

  /** `s.rfind(c)`: the last index of `c` in `s`, or -1. */
  function RFind(s: string, c: char): (r: int)
    ensures -1 <= r < |s|
    ensures r == -1 ==> forall k :: 0 <= k < |s| ==> s[k] != c
    ensures r >= 0 ==> s[r] == c && forall k :: r < k < |s| ==> s[k] != c
  {
    RFindBefore(s, c, |s|)
  }

  /** The last index of `c` in `s` below `n`, or -1. */
  function RFindBefore(s: string, c: char, n: nat): (r: int)
    requires n <= |s|
    ensures -1 <= r < n
    ensures r == -1 ==> forall k :: 0 <= k < n ==> s[k] != c
    ensures r >= 0 ==> s[r] == c && forall k :: r < k < n ==> s[k] != c
  {
    if n == 0 then -1
    else if s[n - 1] == c then n - 1
    else RFindBefore(s, c, n - 1)
  }

  /** Leading and trailing whitespace lie outside any two non-whitespace positions. */
  lemma StripSpansNonSpace(s: string, i: nat, j: nat)
    requires i <= j < |s| && !IsSpace(s[i]) && !IsSpace(s[j])
    ensures LeadingSpaces(s) <= i && j < LeadingSpaces(s) + |Strip(s)|
  {
  }

  /** `find` gives the index of an occurrence with none before it. */
  lemma FindAt(s: string, c: char, k: nat)
    requires k < |s| && s[k] == c
    requires forall m :: 0 <= m < k ==> s[m] != c
    ensures Find(s, c) == k
  {
  }

  /** `rfind` gives the index of an occurrence with none after it. */
  lemma RFindAt(s: string, c: char, k: nat)
    requires k < |s| && s[k] == c
    requires forall m :: k < m < |s| ==> s[m] != c
    ensures RFind(s, c) == k
  {
  }
}
