/** The few string operations of Python's `str` that the reconciler relies on. */
module Text {

  predicate StartsWith(s: string, prefix: string) {
    |prefix| <= |s| && s[..|prefix|] == prefix
  }

  /** `s.endswith(suffix)` */
  predicate EndsWith(s: string, suffix: string) {
    |suffix| <= |s| && s[|s| - |suffix|..] == suffix
  }

  /** The pattern occurs in `s` starting at position `i`. */
  predicate OccursAt(s: string, pattern: string, i: nat) {
    i + |pattern| <= |s| && s[i..i + |pattern|] == pattern
  }

  /** `pattern in s`: the pattern occurs at some position of `s`. */
  predicate Contains(s: string, pattern: string) {
    exists i: nat | i <= |s| :: OccursAt(s, pattern, i)
  }

  /** A string contains every string that occurs in it at some position. */
  lemma ContainsAt(before: string, pattern: string, after: string)
    ensures Contains(before + pattern + after, pattern)
  {
    var s := before + pattern + after;
    assert OccursAt(s, pattern, |before|);
  }

  /** A string that contains a non-empty pattern holds the pattern's first character. */
  lemma ContainsFirst(s: string, pattern: string)
    requires pattern != [] && Contains(s, pattern)
    ensures pattern[0] in s
  {
    var i: nat :| i <= |s| && OccursAt(s, pattern, i);
    assert s[i] == s[i..i + |pattern|][0];
  }

  /** Index of the first occurrence of `c` in `s` (`s.index(c)`). */
  function IndexOf(s: string, c: char): (i: nat)
    requires c in s
    ensures i < |s| && s[i] == c && c !in s[..i]
  {
    if s[0] == c then 0 else 1 + IndexOf(s[1..], c)
  }

  /** Index of the last occurrence of `c` in `s` (`s.rindex(c)`). */
  function LastIndexOf(s: string, c: char): (i: nat)
    requires c in s
    ensures i < |s| && s[i] == c && c !in s[i + 1..]
  {
    if s[|s| - 1] == c then |s| - 1
    else
      assert c in s[..|s| - 1] by {
        var k :| 0 <= k < |s| && s[k] == c;
        assert s[..|s| - 1][k] == c;
      }
      LastIndexOf(s[..|s| - 1], c)
  }

  /** `s.split(sep)` for a one-character separator. */
  function Split(s: string, sep: char): (parts: seq<string>)
    ensures |parts| >= 1
    decreases |s|
  {
    if sep in s then
      var i := IndexOf(s, sep);
      [s[..i]] + Split(s[i + 1..], sep)
    else
      [s]
  }

  /** The first occurrence is the one with no earlier occurrence. */
  lemma IndexOfIs(s: string, c: char, k: nat)
    requires k < |s| && s[k] == c && c !in s[..k]
    ensures IndexOf(s, c) == k
  {
    var i := IndexOf(s, c);
    assert forall j :: 0 <= j < k ==> s[..k][j] == s[j];
    assert forall j :: 0 <= j < i ==> s[..i][j] == s[j];
  }

  /** A separator-free word enclosed in two separators is the second piece of the split. */
  lemma SplitEnclosed(before: string, word: string, after: string, sep: char)
    requires sep !in before && sep !in word
    ensures |Split(before + [sep] + word + [sep] + after, sep)| >= 3
    ensures Split(before + [sep] + word + [sep] + after, sep)[1] == word
  {
    var s := before + [sep] + word + [sep] + after;
    assert s[..|before|] == before;
    IndexOfIs(s, sep, |before|);
    var t := s[|before| + 1..];
    assert t == word + [sep] + after;
    assert t[..|word|] == word;
    IndexOfIs(t, sep, |word|);
  }
}
