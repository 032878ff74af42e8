/**
 * The handful of Python string operations the core relies on: `strip`, `find`,
 * `rfind`, `startswith`, `split`, `replace`, `upper`, `lower` and `title`.
 * Character classes are the ASCII ones.
 */
module Text {

  /** `str.isspace` on ASCII characters: tab to carriage return, the four separators 0x1c-0x1f, and space. */
  predicate IsSpace(c: char) {
    c == ' ' || 9 <= c as int <= 13 || 28 <= c as int <= 31
  }

  predicate IsDigit(c: char) {
    '0' <= c <= '9'
  }

  predicate IsLetter(c: char) {
    'a' <= c <= 'z' || 'A' <= c <= 'Z'
  }

  /** What `\w` matches in an ASCII string. */
  predicate IsWordChar(c: char) {
    IsLetter(c) || IsDigit(c) || c == '_'
  }

  predicate IsQuote(c: char) {
    c == '"'
  }

  // ---------------------------------------------------------------------------
  // strip

  /** The length of the longest prefix of `s` made of characters satisfying `junk`. */
  function TrimStart(s: string, junk: char -> bool, i: nat): (j: nat)
    requires i <= |s|
    ensures i <= j <= |s|
    ensures forall k :: i <= k < j ==> junk(s[k])
    ensures j == |s| || !junk(s[j])
    decreases |s| - i
  {
    if i < |s| && junk(s[i]) then TrimStart(s, junk, i + 1) else i
  }

  /** The end of `s` once the longest suffix of junk after position `lo` is dropped. */
  function TrimEnd(s: string, junk: char -> bool, lo: nat, j: nat): (e: nat)
    requires lo <= j <= |s|
    ensures lo <= e <= j
    ensures forall k :: e <= k < j ==> junk(s[k])
    ensures e == lo || !junk(s[e - 1])
    decreases j
  {
    if lo < j && junk(s[j - 1]) then TrimEnd(s, junk, lo, j - 1) else j
  }

  /** `r` is `s` with a prefix of length `i` and a suffix removed, both made of junk. */
  ghost predicate Trimmed(s: string, junk: char -> bool, i: int, r: string) {
    0 <= i <= |s| - |r| && r == s[i..i + |r|]
    && (forall k :: 0 <= k < i ==> junk(s[k]))
    && (forall k :: i + |r| <= k < |s| ==> junk(s[k]))
  }

  /** `s.strip(chars)`: both ends trimmed. */
  function Trim(s: string, junk: char -> bool): (r: string)
    ensures r == [] || (!junk(r[0]) && !junk(r[|r| - 1]))
    ensures exists i :: Trimmed(s, junk, i, r)
  {
    var i := TrimStart(s, junk, 0);
    var e := TrimEnd(s, junk, i, |s|);
    var r := s[i..e];
    assert Trimmed(s, junk, i, r);
    r
  }

  /** `s.strip()` */
  function Strip(s: string): string {
    Trim(s, IsSpace)
  }

  /** `s.strip('"')` */
  function StripQuotes(s: string): string {
    Trim(s, IsQuote)
  }

  // ---------------------------------------------------------------------------
  // find, rfind, startswith, `in`

  predicate OccursAt(s: string, pat: string, i: int) {
    0 <= i && i + |pat| <= |s| && s[i..i + |pat|] == pat
  }

  predicate StartsWith(s: string, prefix: string) {
    OccursAt(s, prefix, 0)
  }

  predicate Contains(s: string, pat: string) {
    exists i | 0 <= i <= |s| :: OccursAt(s, pat, i)
  }

  /** Starting with a one-character pattern is having that first character. */
  lemma StartsWithChar(s: string, c: char)
    ensures StartsWith(s, [c]) <==> s != [] && s[0] == c
  {
    if s != [] {
      assert s[0..1] == [s[0]];
    }
  }

  function FindFrom(s: string, pat: string, k: nat): (r: int)
    ensures r == -1 || (k <= r && OccursAt(s, pat, r))
    ensures forall i :: k <= i && (r == -1 || i < r) ==> !OccursAt(s, pat, i)
    decreases |s| - k
  {
    if k + |pat| > |s| then -1
    else if s[k..k + |pat|] == pat then k
    else FindFrom(s, pat, k + 1)
  }

  /** `s.find(pat)`: the first index where `pat` occurs, or -1. */
  function Find(s: string, pat: string): (r: int)
    ensures r == -1 <==> !Contains(s, pat)
    ensures r != -1 ==> OccursAt(s, pat, r) && forall i :: 0 <= i < r ==> !OccursAt(s, pat, i)
  {
    FindFrom(s, pat, 0)
  }

  /** An occurrence in a suffix is an occurrence in the whole text, shifted. */
  lemma OccursInSuffix(s: string, pat: string, k: nat, q: int)
    requires k <= |s|
    ensures OccursAt(s[k..], pat, q) <==> (q >= 0 && OccursAt(s, pat, q + k))
  {
    if q >= 0 && q + |pat| <= |s| - k {
      assert s[k..][q..q + |pat|] == s[q + k..q + k + |pat|];
    }
  }

  /** An occurrence in a prefix is an occurrence in the whole text, and conversely when it fits. */
  lemma OccursInPrefix(s: string, pat: string, n: nat, q: int)
    requires n <= |s|
    ensures OccursAt(s[..n], pat, q) <==> (OccursAt(s, pat, q) && q + |pat| <= n)
  {
    if 0 <= q && q + |pat| <= n {
      assert s[..n][q..q + |pat|] == s[q..q + |pat|];
    }
  }

  /** `s.split(sep)[0]` for a non-empty separator: the text up to the first occurrence of `sep`. */
  function Head(s: string, sep: string): (r: string)
    ensures |r| <= |s| && r == s[..|r|]
    ensures forall q :: 0 <= q < |r| ==> !OccursAt(s, sep, q)
    ensures |r| == |s| || OccursAt(s, sep, |r|)
  {
    var k := Find(s, sep);
    if k == -1 then s else s[..k]
  }

  /** The first index of `c` in `s`, or -1. */
  function IndexOf(s: string, c: char): (r: int)
    ensures r == -1 ==> c !in s
    ensures r != -1 ==> 0 <= r < |s| && s[r] == c && c !in s[..r]
    ensures r != -1 ==> forall k :: 0 <= k < r ==> s[k] != c
  {
    if s == [] then -1
    else if s[0] == c then 0
    else
      var k := IndexOf(s[1..], c);
      if k == -1 then -1
      else
        assert s[..k + 1] == [s[0]] + s[1..][..k];
        k + 1
  }

  /** The last index of `c` in `s`, or -1. */
  function LastIndexOf(s: string, c: char): (r: int)
    ensures r == -1 ==> c !in s
    ensures r != -1 ==> 0 <= r < |s| && s[r] == c && c !in s[r + 1..]
  {
    if s == [] then -1
    else if s[|s| - 1] == c then |s| - 1
    else
      var k := LastIndexOf(s[..|s| - 1], c);
      if k == -1 then -1
      else
        assert s[k + 1..] == s[..|s| - 1][k + 1..] + [s[|s| - 1]];
        k
  }

  // ---------------------------------------------------------------------------
  // split and join on one separator character

  /** `s.split(sep)` for a one-character separator: empty fields are kept. */
  function Split(s: string, sep: char): (parts: seq<string>)
    ensures |parts| >= 1
    decreases |s|
  {
    var i := IndexOf(s, sep);
    if i == -1 then [s] else [s[..i]] + Split(s[i + 1..], sep)
  }

  /** No part of a split contains the separator. */
  lemma {:induction false} SplitPartsLackSeparator(s: string, sep: char)
    ensures forall k :: 0 <= k < |Split(s, sep)| ==> sep !in Split(s, sep)[k]
    decreases |s|
  {
    var i := IndexOf(s, sep);
    if i != -1 {
      var rest := Split(s[i + 1..], sep);
      SplitPartsLackSeparator(s[i + 1..], sep);
      assert Split(s, sep) == [s[..i]] + rest;
      forall k | 0 <= k < |Split(s, sep)| ensures sep !in Split(s, sep)[k] {
        if k > 0 {
          assert Split(s, sep)[k] == rest[k - 1];
        }
      }
    }
  }

  /** `sep.join(parts)` */
  function Join(parts: seq<string>, sep: string): string {
    if parts == [] then ""
    else if |parts| == 1 then parts[0]
    else parts[0] + sep + Join(parts[1..], sep)
  }

  /** Splitting and joining back on the same separator gives the original text. */
  lemma {:induction false} JoinSplit(s: string, sep: char)
    ensures Join(Split(s, sep), [sep]) == s
    decreases |s|
  {
    var i := IndexOf(s, sep);
    if i != -1 {
      var rest := Split(s[i + 1..], sep);
      JoinSplit(s[i + 1..], sep);
      assert Split(s, sep) == [s[..i]] + rest;
      assert Join([s[..i]] + rest, [sep]) == s[..i] + [sep] + Join(rest, [sep]);
      assert s == s[..i] + [sep] + s[i + 1..];
    }
  }

  // ---------------------------------------------------------------------------
  // replace(pat, '')

  /** `s.replace(pat, '')`: removes the non-overlapping occurrences of `pat`, scanning left to right. */
  function Remove(s: string, pat: string): (r: string)
    requires pat != []
    ensures |r| <= |s|
    decreases |s|
  {
    if s == [] then []
    else if StartsWith(s, pat) then Remove(s[|pat|..], pat)
    else [s[0]] + Remove(s[1..], pat)
  }

  /** After removing a single character, that character no longer occurs. */
  lemma {:induction false} RemoveCharGone(s: string, c: char)
    ensures c !in Remove(s, [c])
    decreases |s|
  {
    if s != [] {
      RemoveCharGone(s[1..], c);
      if !StartsWith(s, [c]) {
        assert s[0..1] == [s[0]];
      }
    }
  }

  /** Removal only deletes: every character left was in the text. */
  lemma {:induction false} RemoveOnlyDeletes(s: string, pat: string, c: char)
    requires pat != []
    ensures c in Remove(s, pat) ==> c in s
    decreases |s|
  {
    if s != [] {
      if StartsWith(s, pat) {
        RemoveOnlyDeletes(s[|pat|..], pat, c);
        if c in Remove(s[|pat|..], pat) {
          var k :| 0 <= k < |s[|pat|..]| && s[|pat|..][k] == c;
          assert s[k + |pat|] == c;
        }
      } else {
        RemoveOnlyDeletes(s[1..], pat, c);
        if c in Remove(s[1..], pat) {
          var k :| 0 <= k < |s[1..]| && s[1..][k] == c;
          assert s[k + 1] == c;
        }
      }
    }
  }

  /** Removing a character keeps every other character. */
  lemma {:induction false} RemoveCharKeeps(s: string, c: char, d: char)
    requires d != c
    ensures d in s <==> d in Remove(s, [c])
    decreases |s|
  {
    if s != [] {
      RemoveCharKeeps(s[1..], c, d);
      assert s == [s[0]] + s[1..];
      if StartsWith(s, [c]) {
        assert s[0..1] == [c];
      }
    }
  }

  /** The characters of `s` not in `cs`, in order. */
  function Without(s: string, cs: set<char>): string {
    if s == [] then [] else (if s[0] in cs then [] else [s[0]]) + Without(s[1..], cs)
  }

  /** Removing a single character is filtering it out. */
  lemma {:induction false} RemoveCharIsWithout(s: string, c: char)
    ensures Remove(s, [c]) == Without(s, {c})
    decreases |s|
  {
    if s != [] {
      RemoveCharIsWithout(s[1..], c);
      StartsWithChar(s, c);
    }
  }

  /**
   * Removing a pattern made only of characters in `cs` deletes nothing else: once `cs` is
   * filtered out, the text before and after the removal agree.
   */
  lemma {:induction false} RemoveWithin(s: string, pat: string, cs: set<char>)
    requires pat != [] && forall i :: 0 <= i < |pat| ==> pat[i] in cs
    ensures Without(Remove(s, pat), cs) == Without(s, cs)
    decreases |s|
  {
    if s != [] {
      if StartsWith(s, pat) {
        RemoveWithin(s[|pat|..], pat, cs);
        WithoutSkips(s, |pat|, cs);
      } else {
        RemoveWithin(s[1..], pat, cs);
        var r := [s[0]] + Remove(s[1..], pat);
        assert r[0] == s[0] && r[1..] == Remove(s[1..], pat);
      }
    }
  }

  /** A prefix made only of characters in `cs` vanishes under the filter. */
  lemma {:induction false} WithoutSkips(s: string, n: nat, cs: set<char>)
    requires n <= |s| && forall i :: 0 <= i < n ==> s[i] in cs
    ensures Without(s, cs) == Without(s[n..], cs)
  {
    if n > 0 {
      WithoutSkips(s[1..], n - 1, cs);
      assert s[1..][n - 1..] == s[n..];
    }
  }

  /** Filtering twice is filtering once by both sets. */
  lemma {:induction false} WithoutTwice(s: string, a: set<char>, b: set<char>)
    ensures Without(Without(s, a), b) == Without(s, a + b)
  {
    if s != [] {
      WithoutTwice(s[1..], a, b);
      var w := Without(s, a);
      if s[0] in a {
        assert w == Without(s[1..], a);
      } else {
        assert w[0] == s[0] && w[1..] == Without(s[1..], a);
      }
    }
  }

  // ---------------------------------------------------------------------------
  // upper, lower, title

  function UpperChar(c: char): char {
    if 'a' <= c <= 'z' then (c as int - 32) as char else c
  }

  function LowerChar(c: char): char {
    if 'A' <= c <= 'Z' then (c as int + 32) as char else c
  }

  /** `s.upper()` on ASCII letters. */
  function Upper(s: string): (r: string)
    ensures |r| == |s| && forall i :: 0 <= i < |s| ==> r[i] == UpperChar(s[i])
  {
    seq(|s|, i requires 0 <= i < |s| => UpperChar(s[i]))
  }

  /** `s.lower()` on ASCII letters. */
  function Lower(s: string): (r: string)
    ensures |r| == |s| && forall i :: 0 <= i < |s| ==> r[i] == LowerChar(s[i])
  {
    seq(|s|, i requires 0 <= i < |s| => LowerChar(s[i]))
  }

  function TitleAfter(s: string, afterLetter: bool): (r: string)
    ensures |r| == |s|
  {
    if s == [] then []
    else
      var c := if afterLetter then LowerChar(s[0]) else UpperChar(s[0]);
      [c] + TitleAfter(s[1..], IsLetter(s[0]))
  }

  /**
   * `s.title()` on ASCII text: a letter is upper-cased when the character before it is not a
   * letter and lower-cased otherwise; every other character is kept.
   */
  function Title(s: string): (r: string)
    ensures |r| == |s|
  {
    TitleAfter(s, false)
  }

  /** Title case puts the first letter of every word in upper case and the rest in lower case. */
  lemma {:induction false} TitleAt(s: string, afterLetter: bool, i: nat)
    requires i < |s|
    ensures TitleAfter(s, afterLetter)[i] ==
      if (if i == 0 then afterLetter else IsLetter(s[i - 1])) then LowerChar(s[i]) else UpperChar(s[i])
  {
    if i > 0 {
      TitleAt(s[1..], IsLetter(s[0]), i - 1);
    }
  }
}
