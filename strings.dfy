/**
 * The Foundation string operations the viewer relies on, restricted to what
 * the model needs: character classes, ASCII case folding, trimming, searching,
 * replace-all, and the case-insensitive ordering used for sorting.
 */
module Strings {

  import opened Common

  // ---------------------------------------------------------------------
  // Character classes
  // ---------------------------------------------------------------------

  /** `CharacterSet.whitespaces`: tab and the Unicode space separators (category Zs). */
  predicate IsBlank(c: char) {
    c == ' ' || c == '\t' || c == '\U{00A0}' || c == '\U{1680}' ||
    ('\U{2000}' <= c <= '\U{200A}') || c == '\U{202F}' || c == '\U{205F}' || c == '\U{3000}'
  }

  /** `CharacterSet.newlines`: U+000A to U+000D, U+0085, U+2028 and U+2029. */
  predicate IsNewline(c: char) {
    ('\n' <= c <= '\r') || c == '\U{0085}' || c == '\U{2028}' || c == '\U{2029}'
  }

  /** `CharacterSet.whitespacesAndNewlines`. */
  predicate IsBlankOrNewline(c: char) {
    IsBlank(c) || IsNewline(c)
  }

  /** What the regular-expression class `\s` matches: tab, LF, FF, CR and the separators (Z). */
  predicate IsRegexSpace(c: char) {
    c == '\t' || c == '\n' || c == '\U{000C}' || c == '\r' ||
    (IsBlank(c) && c != '\t') || c == '\U{2028}' || c == '\U{2029}'
  }

  /** An ASCII letter or digit: the alphanumerics the model recognises. */
  predicate IsAlnum(c: char) {
    ('a' <= c <= 'z') || ('A' <= c <= 'Z') || ('0' <= c <= '9')
  }

  /** What the regular-expression class `\w` matches (ASCII part). */
  predicate IsWordChar(c: char) {
    IsAlnum(c) || c == '_'
  }

  // ---------------------------------------------------------------------
  // Case folding
  // ---------------------------------------------------------------------

  function LowerChar(c: char): (d: char)
    ensures 'A' <= c <= 'Z' ==> d as int == c as int + 32
    ensures !('A' <= c <= 'Z') ==> d == c
  {
    if 'A' <= c <= 'Z' then (c as int + 32) as char else c
  }

  /** `lowercased()`, ASCII letters only. */
  function Lower(s: string): (r: string)
    ensures |r| == |s|
    ensures forall i :: 0 <= i < |s| ==> r[i] == LowerChar(s[i])
  {
    seq(|s|, i requires 0 <= i < |s| => LowerChar(s[i]))
  }

  lemma LowerAppend(a: string, b: string)
    ensures Lower(a + b) == Lower(a) + Lower(b)
  {
    assert Lower(a + b) == Lower(a) + Lower(b);
  }

  lemma LowerSlice(s: string, i: nat, j: nat)
    requires i <= j <= |s|
    ensures Lower(s[i..j]) == Lower(s)[i..j]
  {
  }

  lemma LowerIdempotent(s: string)
    ensures Lower(Lower(s)) == Lower(s)
  {
  }

  // ---------------------------------------------------------------------
  // Prefixes, suffixes, searching
  // ---------------------------------------------------------------------

  predicate HasPrefix(s: string, p: string) {
    |p| <= |s| && s[..|p|] == p
  }

  predicate HasSuffix(s: string, p: string) {
    |p| <= |s| && s[|s| - |p|..] == p
  }

  /** Index of the first `c` at or after `from`, or `|s|` when there is none. */
  function IndexOf(s: string, from: nat, c: char): (j: nat)
    requires from <= |s|
    ensures from <= j <= |s|
    ensures j < |s| ==> s[j] == c
    ensures forall k :: from <= k < j ==> s[k] != c
    decreases |s| - from
  {
    if from == |s| || s[from] == c then from else IndexOf(s, from + 1, c)
  }

  /** First position at or after `i` whose character does not satisfy `p`, or `|s|`. */
  function SkipWhile(s: string, i: nat, p: char -> bool): (j: nat)
    requires i <= |s|
    ensures i <= j <= |s|
    ensures forall k :: i <= k < j ==> p(s[k])
    ensures j < |s| ==> !p(s[j])
    decreases |s| - i
  {
    if i == |s| || !p(s[i]) then i else SkipWhile(s, i + 1, p)
  }

  /** Equality of two strings, ignoring ASCII case when `ignoreCase` holds. */
  predicate Same(a: string, b: string, ignoreCase: bool) {
    if ignoreCase then Lower(a) == Lower(b) else a == b
  }

  /** `pat` occurs in `s` at position `i`. */
  predicate MatchAt(s: string, i: nat, pat: string, ignoreCase: bool) {
    i + |pat| <= |s| && Same(s[i..i + |pat|], pat, ignoreCase)
  }

  /** Position of the first occurrence of `pat` in `s` at or after `from`; Foundation finds no empty string. */
  function Find(s: string, from: nat, pat: string, ignoreCase: bool): (r: Option<nat>)
    requires from <= |s|
    ensures r.Some? ==> pat != [] && from <= r.value && MatchAt(s, r.value, pat, ignoreCase)
    ensures r.Some? ==> forall k :: from <= k < r.value ==> !MatchAt(s, k, pat, ignoreCase)
    ensures r.None? && pat != [] ==> forall k :: from <= k <= |s| ==> !MatchAt(s, k, pat, ignoreCase)
    decreases |s| - from
  {
    if pat == [] || from + |pat| > |s| then None
    else if MatchAt(s, from, pat, ignoreCase) then Some(from)
    else Find(s, from + 1, pat, ignoreCase)
  }

  /**
   * `replacingOccurrences(of: pat, with: rep)`: every occurrence of `pat`,
   * found left to right without overlap, is replaced by `rep`.
   */
  function ReplaceAll(s: string, pat: string, rep: string, ignoreCase: bool): (r: string)
    ensures |rep| <= |pat| ==> |r| <= |s|
    ensures pat != [] && (forall i :: 0 <= i <= |s| ==> !MatchAt(s, i, pat, ignoreCase)) ==> r == s
    decreases |s|
  {
    if pat == [] || |s| < |pat| then s
    else if MatchAt(s, 0, pat, ignoreCase) then rep + ReplaceAll(s[|pat|..], pat, rep, ignoreCase)
    else
      assert forall i :: 0 <= i <= |s| - 1 ==> MatchAt(s[1..], i, pat, ignoreCase) == MatchAt(s, i + 1, pat, ignoreCase) by {
        forall i | 0 <= i <= |s| - 1 ensures MatchAt(s[1..], i, pat, ignoreCase) == MatchAt(s, i + 1, pat, ignoreCase) {
          if i + |pat| <= |s| - 1 {
            assert s[1..][i..i + |pat|] == s[i + 1..i + 1 + |pat|];
          }
        }
      }
      [s[0]] + ReplaceAll(s[1..], pat, rep, ignoreCase)
  }

  // ---------------------------------------------------------------------
  // Trimming
  // ---------------------------------------------------------------------

  /** Position just past the last character of `s[a..b]` that `drop` keeps, or `a` when it drops them all. */
  function SkipBackWhile(s: string, a: nat, b: nat, drop: char -> bool): (e: nat)
    requires a <= b <= |s|
    ensures a <= e <= b
    ensures forall k :: e <= k < b ==> drop(s[k])
    ensures e > a ==> !drop(s[e - 1])
    decreases b
  {
    if b == a || !drop(s[b - 1]) then b else SkipBackWhile(s, a, b - 1, drop)
  }

  function TrimEnd(s: string, drop: char -> bool): (r: string)
    ensures |r| <= |s| && r == s[..|r|]
    ensures forall i :: |r| <= i < |s| ==> drop(s[i])
    ensures r != [] ==> !drop(r[|r| - 1])
  {
    s[..SkipBackWhile(s, 0, |s|, drop)]
  }

  /**
   * `trimmingCharacters(in:)`: the longest slice of `s` that neither starts
   * nor ends with a dropped character (see `TrimCut`).
   */
  function Trim(s: string, drop: char -> bool): string {
    var a := SkipWhile(s, 0, drop);
    s[a..SkipBackWhile(s, a, |s|, drop)]
  }

  /** The trimmed string is the slice of `s` after its leading dropped characters, and everything cut off is dropped. */
  lemma TrimCut(s: string, drop: char -> bool)
    ensures CutFrom(s, Trim(s, drop), SkipWhile(s, 0, drop), drop)
    ensures Trim(s, drop) != [] ==> !drop(Trim(s, drop)[0]) && !drop(Trim(s, drop)[|Trim(s, drop)| - 1])
  {
  }

  /** `r` is the slice of `s` at `a`, and everything of `s` around it satisfies `drop`. */
  ghost predicate CutFrom(s: string, r: string, a: int, drop: char -> bool) {
    0 <= a && a + |r| <= |s| && r == s[a..a + |r|] &&
    (forall i :: 0 <= i < a ==> drop(s[i])) &&
    (forall i :: a + |r| <= i < |s| ==> drop(s[i]))
  }

  // ---------------------------------------------------------------------
  // Case-insensitive ordering and sorting
  // ---------------------------------------------------------------------

  /** Lexicographic order on code points. */
  predicate LexLeq(a: string, b: string)
    decreases |a|
  {
    a == [] || (b != [] && (a[0] < b[0] || (a[0] == b[0] && LexLeq(a[1..], b[1..]))))
  }

  lemma {:induction false} LexLeqTotal(a: string, b: string)
    ensures LexLeq(a, b) || LexLeq(b, a)
    decreases |a|
  {
    if a != [] && b != [] && a[0] == b[0] {
      LexLeqTotal(a[1..], b[1..]);
    }
  }

  lemma {:induction false} LexLeqTransitive(a: string, b: string, c: string)
    requires LexLeq(a, b) && LexLeq(b, c)
    ensures LexLeq(a, c)
    decreases |a|
  {
    if a != [] && a[0] == b[0] && b[0] == c[0] {
      LexLeqTransitive(a[1..], b[1..], c[1..]);
    }
  }

  /**
   * "Not after" under `localizedCaseInsensitiveCompare`, modelled as the
   * lexicographic order of the ASCII-lowercased strings.
   */
  predicate CaseInsensitiveLeq(a: string, b: string) {
    LexLeq(Lower(a), Lower(b))
  }

  ghost predicate SortedBy<T>(xs: seq<T>, key: T -> string) {
    forall i, j :: 0 <= i < j < |xs| ==> CaseInsensitiveLeq(key(xs[i]), key(xs[j]))
  }

  /** Inserts `x` before the first element of `xs` whose key is not below it. */
  function Insert<T>(x: T, xs: seq<T>, key: T -> string): (r: seq<T>)
    requires SortedBy(xs, key)
    ensures multiset(r) == multiset(xs) + multiset{x}
    ensures SortedBy(r, key)
    decreases |xs|
  {
    if xs == [] then [x]
    else if CaseInsensitiveLeq(key(x), key(xs[0])) then
      InsertFront(x, xs, key);
      [x] + xs
    else
      var rest := Insert(x, xs[1..], key);
      InsertBehind(x, xs, key, rest);
      [xs[0]] + rest
  }

  /** An element whose key is not above the first key can go in front. */
  lemma InsertFront<T>(x: T, xs: seq<T>, key: T -> string)
    requires SortedBy(xs, key) && xs != [] && CaseInsensitiveLeq(key(x), key(xs[0]))
    ensures SortedBy([x] + xs, key)
  {
    forall j | 0 <= j < |xs| ensures CaseInsensitiveLeq(key(x), key(xs[j])) {
      if j > 0 {
        LexLeqTransitive(Lower(key(x)), Lower(key(xs[0])), Lower(key(xs[j])));
      }
    }
  }

  /** An element whose key is above the first key goes behind it, into the sorted rest. */
  lemma InsertBehind<T>(x: T, xs: seq<T>, key: T -> string, rest: seq<T>)
    requires SortedBy(xs, key) && xs != [] && !CaseInsensitiveLeq(key(x), key(xs[0]))
    requires multiset(rest) == multiset(xs[1..]) + multiset{x} && SortedBy(rest, key)
    ensures multiset([xs[0]] + rest) == multiset(xs) + multiset{x}
    ensures SortedBy([xs[0]] + rest, key)
  {
    LexLeqTotal(Lower(key(x)), Lower(key(xs[0])));
    assert xs == [xs[0]] + xs[1..];
    forall j | 0 <= j < |rest| ensures CaseInsensitiveLeq(key(xs[0]), key(rest[j])) {
      assert rest[j] in multiset(rest);
      assert rest[j] == x || rest[j] in multiset(xs[1..]);
      if rest[j] != x {
        var k :| 0 <= k < |xs[1..]| && xs[1..][k] == rest[j];
        assert xs[k + 1] == rest[j];
      }
    }
  }

  /**
   * `sorted { a, b in key(a) <ci key(b) }`: an insertion sort by key,
   * ascending under the case-insensitive order.
   */
  function SortBy<T>(xs: seq<T>, key: T -> string): (r: seq<T>)
    ensures multiset(r) == multiset(xs)
    ensures SortedBy(r, key)
    decreases |xs|
  {
    if xs == [] then []
    else
      assert xs == [xs[0]] + xs[1..];
      Insert(xs[0], SortBy(xs[1..], key), key)
  }
}
