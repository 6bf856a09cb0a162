/**
 * The few Kotlin standard-library string operations the code generator relies on,
 * written out over `seq<char>`: `trim`, `replace(String, String)`, `contains`,
 * `substringBeforeLast` / `substringAfterLast` on a `Char`, `removeSuffix`,
 * and the natural ordering `String.compareTo` used by `sortedBy`.
 */
module KotlinText {

  /** `Char.isWhitespace()`: Java's `isWhitespace` or `isSpaceChar`. */
  predicate IsWhitespace(c: char) {
    || c == ' ' || c == '\t' || c == '\n' || c == '\U{000B}' || c == '\U{000C}' || c == '\r'
    || ('\U{001C}' <= c <= '\U{001F}')
    || c == '\U{00A0}' || c == '\U{1680}' || ('\U{2000}' <= c <= '\U{200A}')
    || c == '\U{2028}' || c == '\U{2029}' || c == '\U{202F}' || c == '\U{205F}' || c == '\U{3000}'
  }

  function TrimStart(s: string): (r: string)
    ensures |r| <= |s|
  {
    if s != [] && IsWhitespace(s[0]) then TrimStart(s[1..]) else s
  }

  function TrimEnd(s: string): (r: string)
    ensures |r| <= |s|
  {
    if s != [] && IsWhitespace(s[|s| - 1]) then TrimEnd(s[..|s| - 1]) else s
  }

  /** `String.trim()`: drops leading and trailing whitespace. */
  function Trim(s: string): (r: string)
    ensures |r| <= |s|
  {
    TrimEnd(TrimStart(s))
  }

  lemma {:induction false} TrimStartFacts(s: string)
    ensures TrimStart(s) == s[|s| - |TrimStart(s)|..]
    ensures TrimStart(s) == [] || !IsWhitespace(TrimStart(s)[0])
    ensures forall k :: 0 <= k < |s| - |TrimStart(s)| ==> IsWhitespace(s[k])
  {
    if s != [] && IsWhitespace(s[0]) {
      TrimStartFacts(s[1..]);
    }
  }

  lemma {:induction false} TrimEndFacts(s: string)
    ensures TrimEnd(s) == s[..|TrimEnd(s)|]
    ensures TrimEnd(s) == [] || !IsWhitespace(TrimEnd(s)[|TrimEnd(s)| - 1])
    ensures forall k :: |TrimEnd(s)| <= k < |s| ==> IsWhitespace(s[k])
  {
    if s != [] && IsWhitespace(s[|s| - 1]) {
      TrimEndFacts(s[..|s| - 1]);
    }
  }

  /**
   * What `trim` keeps is the piece of its input between a whitespace-only head and
   * a whitespace-only tail, and it neither starts nor ends with whitespace.
   */
  lemma TrimFacts(s: string)
    ensures exists i, j ::
      && 0 <= i <= j <= |s| && Trim(s) == s[i..j]
      && (forall k :: 0 <= k < i ==> IsWhitespace(s[k]))
      && (forall k :: j <= k < |s| ==> IsWhitespace(s[k]))
    ensures Trim(s) == [] || (!IsWhitespace(Trim(s)[0]) && !IsWhitespace(Trim(s)[|Trim(s)| - 1]))
  {
    var t := TrimStart(s);
    TrimStartFacts(s);
    TrimEndFacts(t);
    var r := TrimEnd(t);
    var i := |s| - |t|;
    var j := i + |r|;
    assert t == s[i..];
    assert r == t[..|r|];
    assert r == s[i..j];
    assert forall k :: j <= k < |s| ==> IsWhitespace(s[k]) by {
      forall k | j <= k < |s| ensures IsWhitespace(s[k]) {
        assert s[k] == t[k - i];
      }
    }
    assert Trim(s) == r;
  }

  /** `contains(other)`: `sub` occurs somewhere in `s` (the empty string occurs everywhere). */
  predicate ContainsSub(s: string, sub: string)
    decreases |s|
  {
    if sub <= s then true
    else if s == [] then false
    else ContainsSub(s[1..], sub)
  }

  /** What occurs in a suffix occurs in the whole string. */
  lemma {:induction false} ContainsSubSuffix(s: string, k: nat, sub: string)
    requires k <= |s| && ContainsSub(s[k..], sub)
    ensures ContainsSub(s, sub)
    decreases k
  {
    if k > 0 && !(sub <= s) {
      assert s[1..][k - 1..] == s[k..];
      ContainsSubSuffix(s[1..], k - 1, sub);
    }
  }

  /**
   * `replace(pattern, replacement)`: every non-overlapping occurrence of `pattern`,
   * scanning from the left, is replaced. An empty pattern matches before every
   * character and at the end, as in Kotlin.
   */
  function ReplaceAll(s: string, pattern: string, replacement: string): string
    decreases |s|
  {
    if pattern == [] then
      if s == [] then replacement else replacement + [s[0]] + ReplaceAll(s[1..], pattern, replacement)
    else if s == [] then []
    else if pattern <= s then replacement + ReplaceAll(s[|pattern|..], pattern, replacement)
    else [s[0]] + ReplaceAll(s[1..], pattern, replacement)
  }

  /** A string in which a non-empty pattern does not occur is left unchanged by `replace`. */
  lemma {:induction false} ReplaceAllAbsent(s: string, pattern: string, replacement: string)
    requires pattern != [] && !ContainsSub(s, pattern)
    ensures ReplaceAll(s, pattern, replacement) == s
    decreases |s|
  {
    if s != [] {
      ReplaceAllAbsent(s[1..], pattern, replacement);
    }
  }

  /** A pattern at the front of text without the pattern's first character is replaced once. */
  lemma ReplaceAtFront(p: string, b: string, rep: string)
    requires p != [] && p[0] !in b
    ensures ReplaceAll(p + b, p, rep) == rep + b
  {
    assert (p + b)[|p|..] == b;
    assert p[0] in p;
    AbsentCharNotContained(b, p, p[0]);
    ReplaceAllAbsent(b, p, rep);
  }

  /** Concatenation regroups freely. */
  lemma AppendAssoc<T>(a: seq<T>, b: seq<T>, c: seq<T>)
    ensures (a + b) + c == a + (b + c)
  {
  }

  /** A non-empty sequence is its head followed by its tail, whatever comes after. */
  lemma ConsAppend<T>(a: seq<T>, r: seq<T>)
    requires a != []
    ensures [a[0]] + (a[1..] + r) == a + r
  {
    assert a == [a[0]] + a[1..];
  }

  /** A character other than the pattern's first is copied and the rest is replaced. */
  lemma ReplaceStep(c: char, t: string, p: string, rep: string)
    requires p != [] && p[0] != c
    ensures ReplaceAll([c] + t, p, rep) == [c] + ReplaceAll(t, p, rep)
  {
    assert ([c] + t)[1..] == t;
  }

  /** Text without the pattern's first character is copied through unchanged ahead of the rest. */
  lemma {:induction false} ReplaceAfterPlain(a: string, t: string, p: string, rep: string)
    requires p != [] && p[0] !in a
    ensures ReplaceAll(a + t, p, rep) == a + ReplaceAll(t, p, rep)
    decreases |a|
  {
    if a == [] {
      assert a + t == t;
    } else {
      ConsAppend(a, t);
      assert a[0] in a;
      ReplaceStep(a[0], a[1..] + t, p, rep);
      ReplaceAfterPlain(a[1..], t, p, rep);
      ConsAppend(a, ReplaceAll(t, p, rep));
    }
  }

  /** A single occurrence of a pattern, amid text without the pattern's first character, is replaced in place. */
  lemma ReplaceOnce(a: string, p: string, b: string, rep: string)
    requires p != [] && p[0] !in a && p[0] !in b
    ensures ReplaceAll(a + p + b, p, rep) == a + rep + b
  {
    assert a + p + b == a + (p + b);
    ReplaceAfterPlain(a, p + b, p, rep);
    ReplaceAtFront(p, b, rep);
  }

  /** Replacing a pattern by itself changes nothing. */
  lemma {:induction false} ReplaceAllSelf(s: string, pattern: string)
    ensures ReplaceAll(s, pattern, pattern) == s
    decreases |s|
  {
    if pattern == [] {
      if s != [] {
        ReplaceAllSelf(s[1..], pattern);
      }
    } else if s != [] {
      if pattern <= s {
        ReplaceAllSelf(s[|pattern|..], pattern);
        assert s == pattern + s[|pattern|..];
      } else {
        ReplaceAllSelf(s[1..], pattern);
      }
    }
  }

  /** A non-empty pattern that holds a character absent from `s` does not occur in `s`. */
  lemma {:induction false} AbsentCharNotContained(s: string, sub: string, c: char)
    requires c in sub && c !in s
    ensures !ContainsSub(s, sub)
    decreases |s|
  {
    if s != [] {
      AbsentCharNotContained(s[1..], sub, c);
    }
  }

  /** Removing every `c` leaves a string without `c`; a string without `c` is left as it is. */
  lemma {:induction false} RemoveCharFacts(s: string, c: char)
    ensures c !in ReplaceAll(s, [c], [])
    ensures c !in s ==> ReplaceAll(s, [c], []) == s
    decreases |s|
  {
    if s != [] {
      RemoveCharFacts(s[1..], c);
      if c !in s {
        assert c !in s[1..];
      }
    }
  }

  /** Index of the last `c` in `s`, or -1. */
  function LastIndexOf(s: string, c: char): (i: int)
    ensures -1 <= i < |s|
  {
    if s == [] then -1
    else if s[|s| - 1] == c then |s| - 1
    else LastIndexOf(s[..|s| - 1], c)
  }

  /** The index found holds `c`, and no later position does. */
  lemma {:induction false} LastIndexOfSpec(s: string, c: char)
    ensures var i := LastIndexOf(s, c);
      && (i >= 0 ==> s[i] == c)
      && (forall j :: i < j < |s| ==> s[j] != c)
    decreases |s|
  {
    if s != [] && s[|s| - 1] != c {
      LastIndexOfSpec(s[..|s| - 1], c);
    }
  }

  /** `substringBeforeLast(c, missing)`. */
  function BeforeLast(s: string, c: char, missing: string): string {
    var i := LastIndexOf(s, c);
    if i < 0 then missing else s[..i]
  }

  /** `substringAfterLast(c)`: the whole string when `c` does not occur. */
  function AfterLast(s: string, c: char): string {
    var i := LastIndexOf(s, c);
    if i < 0 then s else s[i + 1..]
  }

  /** The two halves around the last `c` put `s` back together, and the tail holds no `c`. */
  lemma SplitAtLast(s: string, c: char, missing: string)
    ensures c !in AfterLast(s, c)
    ensures c in s ==> BeforeLast(s, c, missing) + [c] + AfterLast(s, c) == s
    ensures c !in s ==> BeforeLast(s, c, missing) == missing && AfterLast(s, c) == s
  {
    var i := LastIndexOf(s, c);
    LastIndexOfSpec(s, c);
    if i >= 0 {
      assert s == s[..i] + [c] + s[i + 1..];
    }
  }

  /** `removeSuffix(suffix)`. */
  function RemoveSuffix(s: string, suffix: string): (r: string)
    ensures r == s || r + suffix == s
  {
    if |suffix| <= |s| && s[|s| - |suffix|..] == suffix then s[..|s| - |suffix|] else s
  }

  /** `a.compareTo(b) < 0`: lexicographic by character, a proper prefix first. */
  predicate StrLess(a: string, b: string) {
    if a == [] then b != []
    else if b == [] then false
    else if a[0] != b[0] then a[0] < b[0]
    else StrLess(a[1..], b[1..])
  }

  lemma {:induction false} StrLessIrreflexive(a: string)
    ensures !StrLess(a, a)
  {
    if a != [] {
      StrLessIrreflexive(a[1..]);
    }
  }

  lemma {:induction false} StrLessTransitive(a: string, b: string, c: string)
    requires StrLess(a, b) && StrLess(b, c)
    ensures StrLess(a, c)
  {
    if a != [] && b != [] && c != [] && a[0] == b[0] && b[0] == c[0] {
      StrLessTransitive(a[1..], b[1..], c[1..]);
    }
  }

  lemma {:induction false} StrLessTotal(a: string, b: string)
    ensures a == b || StrLess(a, b) || StrLess(b, a)
  {
    if a != [] && b != [] && a[0] == b[0] {
      StrLessTotal(a[1..], b[1..]);
      if a[1..] == b[1..] {
        assert a == [a[0]] + a[1..] && b == [b[0]] + b[1..];
      }
    }
  }

  lemma StrLessAsymmetric(a: string, b: string)
    requires StrLess(a, b)
    ensures !StrLess(b, a)
  {
    if StrLess(b, a) {
      StrLessTransitive(a, b, a);
      StrLessIrreflexive(a);
    }
  }

  /** A proper prefix sorts before the string it starts. */
  lemma {:induction false} ProperPrefixLess(a: string, b: string)
    requires a <= b && a != b
    ensures StrLess(a, b)
  {
    if a != [] {
      ProperPrefixLess(a[1..], b[1..]);
    }
  }

  ghost predicate Sorted(s: seq<string>) {
    forall i, j :: 0 <= i < j < |s| ==> !StrLess(s[j], s[i])
  }

  function Insert(x: string, s: seq<string>): (r: seq<string>)
    requires Sorted(s)
    ensures Sorted(r) && multiset(r) == multiset(s) + multiset{x}
  {
    if s == [] then [x]
    else if !StrLess(s[0], x) then
      InsertFront(x, s);
      [x] + s
    else
      var t := Insert(x, s[1..]);
      InsertBehind(x, s, t);
      [s[0]] + t
  }

  /** Keeping the head in front of the tail with `x` inserted keeps the order, and adds just `x`. */
  lemma InsertBehind(x: string, s: seq<string>, t: seq<string>)
    requires Sorted(s) && s != [] && StrLess(s[0], x)
    requires Sorted(t) && multiset(t) == multiset(s[1..]) + multiset{x}
    ensures Sorted([s[0]] + t) && multiset([s[0]] + t) == multiset(s) + multiset{x}
  {
    assert s == [s[0]] + s[1..];
    forall k | 0 <= k < |t| ensures !StrLess(t[k], s[0]) {
      assert t[k] in multiset(t);
      if t[k] == x {
        StrLessAsymmetric(s[0], x);
      } else {
        assert t[k] in multiset(s[1..]);
        var m :| 0 <= m < |s[1..]| && s[1..][m] == t[k];
        assert s[m + 1] == t[k];
      }
    }
    var r := [s[0]] + t;
    forall i, j | 0 <= i < j < |r| ensures !StrLess(r[j], r[i]) {
      if i > 0 {
        assert r[i] == t[i - 1] && r[j] == t[j - 1];
      } else {
        assert r[j] == t[j - 1];
      }
    }
  }

  lemma InsertFront(x: string, s: seq<string>)
    requires Sorted(s) && s != [] && !StrLess(s[0], x)
    ensures Sorted([x] + s)
  {
    forall j | 0 <= j < |s| ensures !StrLess(s[j], x) {
      if StrLess(s[j], x) {
        StrLessTotal(s[0], s[j]);
        if StrLess(s[0], s[j]) {
          StrLessTransitive(s[0], s[j], x);
        }
      }
    }
  }

  /** `sortedBy { it }` on strings: an ordered permutation of the input. */
  function SortStrings(s: seq<string>): (r: seq<string>)
    ensures Sorted(r) && multiset(r) == multiset(s)
  {
    if s == [] then []
    else
      assert s == [s[0]] + s[1..];
      Insert(s[0], SortStrings(s[1..]))
  }
}
