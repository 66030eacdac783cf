/**
 * The text helpers of the search index (Sources/CHMKit/CHMSearchIndex.swift):
 * `tokenize`, `stripHTML`, `extractTitle` and `generateSnippet`.
 *
 * The regular expressions the source compiles are written out as direct
 * scanners, one per pattern; each is deterministic at a given position, so
 * a scan from left to right, resuming after each match, is exactly what the
 * regular-expression engine reports.
 */
module SearchText {

  import opened Common
  import opened Strings

  // ---------------------------------------------------------------------
  // tokenize
  // ---------------------------------------------------------------------

  predicate AllAlnum(s: string) {
    forall i :: 0 <= i < |s| ==> IsAlnum(s[i])
  }

  /**
   * `components(separatedBy: .alphanumerics.inverted)`: the pieces between
   * separator characters, empty pieces included; "" gives one empty piece.
   */
  function Components(s: string): (parts: seq<string>)
    ensures |parts| >= 1
    ensures forall p :: p in parts ==> AllAlnum(p)
    decreases |s|
  {
    if s == [] then [[]]
    else
      var rest := Components(s[1..]);
      if IsAlnum(s[0]) then
        assert rest[0] in rest;
        assert AllAlnum([s[0]] + rest[0]);
        [[s[0]] + rest[0]] + rest[1..]
      else [[]] + rest
  }

  /** The pieces of at least two characters, in order. */
  function LongPieces(parts: seq<string>): (r: seq<string>)
    ensures forall t :: t in r ==> t in parts && |t| >= 2
    decreases |parts|
  {
    if parts == [] then []
    else (if |parts[0]| >= 2 then [parts[0]] else []) + LongPieces(parts[1..])
  }

  /** `tokenize`: the lower-cased alphanumeric runs of at least two characters. */
  function Tokenize(text: string): (words: seq<string>)
    ensures forall w :: w in words ==> |w| >= 2 && AllAlnum(w) && Lower(w) == w
  {
    var lower := Lower(text);
    var words := LongPieces(Components(lower));
    assert forall w :: w in words ==> Lower(w) == w by {
      forall w | w in words ensures Lower(w) == w {
        assert AllAlnum(w);
        LowerOfAlnumLower(w, lower);
      }
    }
    words
  }

  /** Pieces of a lower-cased string have no upper-case letter left to fold. */
  lemma LowerOfAlnumLower(w: string, lower: string)
    requires AllAlnum(w) && w in LongPieces(Components(lower)) && lower == Lower(lower)
    ensures Lower(w) == w
  {
    PiecesOfLower(lower);
  }

  lemma {:induction false} PiecesOfLower(s: string)
    requires Lower(s) == s
    ensures forall p :: p in Components(s) ==> Lower(p) == p
    decreases |s|
  {
    if s != [] {
      assert Lower(s[1..]) == s[1..] by { LowerSlice(s, 1, |s|); }
      PiecesOfLower(s[1..]);
      var rest := Components(s[1..]);
      if IsAlnum(s[0]) {
        assert LowerChar(s[0]) == s[0];
        LowerAppend([s[0]], rest[0]);
        assert rest[0] in rest;
        forall p | p in rest[1..] ensures Lower(p) == p {
          assert p in rest;
        }
      }
    }
  }

  lemma {:induction false} LongPiecesAppend(a: seq<string>, b: seq<string>)
    ensures LongPieces(a + b) == LongPieces(a) + LongPieces(b)
    decreases |a|
  {
    if a == [] {
      assert a + b == b;
    } else {
      assert (a + b)[1..] == a[1..] + b;
      LongPiecesAppend(a[1..], b);
    }
  }

  /** A separator splits the pieces: those before it, then those after it. */
  lemma {:induction false} ComponentsSplit(a: string, c: char, b: string)
    requires !IsAlnum(c)
    ensures Components(a + [c] + b) == Components(a) + Components(b)
    decreases |a|
  {
    if a == [] {
      assert a + [c] + b == [c] + b;
      assert ([c] + b)[1..] == b;
    } else {
      assert (a + [c] + b)[1..] == a[1..] + [c] + b;
      ComponentsSplit(a[1..], c, b);
    }
  }

  /** A run of letters and digits is one piece. */
  lemma {:induction false} ComponentsOfWord(w: string)
    requires AllAlnum(w)
    ensures Components(w) == [w]
    decreases |w|
  {
    if w != [] {
      ComponentsOfWord(w[1..]);
      assert [w[0]] + w[1..] == w;
    }
  }

  /**
   * Tokenizing text split at a non-alphanumeric character gives the tokens
   * of the two sides, in order: nothing spans a separator.
   */
  lemma TokenizeSplit(a: string, c: char, b: string)
    requires !IsAlnum(c)
    ensures Tokenize(a + [c] + b) == Tokenize(a) + Tokenize(b)
  {
    LowerAppend(a + [c], b);
    LowerAppend(a, [c]);
    assert !IsAlnum(LowerChar(c));
    assert Lower([c]) == [LowerChar(c)];
    ComponentsSplit(Lower(a), LowerChar(c), Lower(b));
    LongPiecesAppend(Components(Lower(a)), Components(Lower(b)));
  }

  /** One alphanumeric run is one lower-cased token when it has two characters or more, else none. */
  lemma TokenizeWord(w: string)
    requires AllAlnum(w)
    ensures Tokenize(w) == if |w| >= 2 then [Lower(w)] else []
  {
    assert AllAlnum(Lower(w));
    ComponentsOfWord(Lower(w));
    assert LongPieces([Lower(w)]) == (if |w| >= 2 then [Lower(w)] else []) + LongPieces([]);
  }

  /** Text with no letter or digit has no token. */
  lemma {:induction false} TokenizeNoWords(s: string)
    requires forall i :: 0 <= i < |s| ==> !IsAlnum(s[i])
    ensures Tokenize(s) == []
    decreases |s|
  {
    if s != [] {
      TokenizeNoWords(s[1..]);
      TokenizeSplit([], s[0], s[1..]);
      assert [] + [s[0]] + s[1..] == s;
      TokenizeWord([]);
    }
  }

  // ---------------------------------------------------------------------
  // stripHTML
  // ---------------------------------------------------------------------

  /** The two patterns whose matches `stripHTML` replaces by a space. */
  datatype Pattern =
    | Block   // <(script|style)[^>]*>[\s\S]*?</\1>, ignoring case
    | Tag     // <[^>]+>

  /** End of the match of `p` starting at `i`, if the pattern matches there. */
  function MatchEnd(p: Pattern, s: string, i: nat): (e: Option<nat>)
    requires i <= |s|
    ensures e.Some? ==> i < e.value <= |s| && s[i] == '<'
  {
    if i + 1 >= |s| || s[i] != '<' then None
    else
      match p
      case Tag =>
        if s[i + 1] == '>' then None
        else
          var gt := IndexOf(s, i + 1, '>');
          if gt == |s| then None else Some(gt + 1)
      case Block =>
        var name := if MatchAt(s, i + 1, "script", true) then "script"
                    else if MatchAt(s, i + 1, "style", true) then "style"
                    else "";
        if name == "" then None
        else
          var gt := IndexOf(s, i + 1 + |name|, '>');
          if gt == |s| then None
          else
            match Find(s, gt + 1, "</" + name + ">", true)
            case None => None
            case Some(close) => Some(close + |name| + 3)
  }

  /**
   * `stringByReplacingMatches(withTemplate: " ")`: from `i` on, each match
   * becomes one space and the scan resumes after it; other characters stay.
   */
  function ReplaceMatches(p: Pattern, s: string, i: nat): (r: string)
    requires i <= |s|
    decreases |s| - i
  {
    if i == |s| then []
    else
      match MatchEnd(p, s, i)
      case Some(e) => " " + ReplaceMatches(p, s, e)
      case None => [s[i]] + ReplaceMatches(p, s, i + 1)
  }

  /** Markup without `<` has no match of either pattern and is returned as it is. */
  lemma {:induction false} ReplaceMatchesPlain(p: Pattern, s: string, i: nat)
    requires i <= |s| && forall k :: i <= k < |s| ==> s[k] != '<'
    ensures ReplaceMatches(p, s, i) == s[i..]
    decreases |s| - i
  {
    if i < |s| {
      ReplaceMatchesPlain(p, s, i + 1);
      assert s[i..] == [s[i]] + s[i + 1..];
    }
  }

  /** The five entities `stripHTML` decodes, case-sensitively, in this order. */
  const BasicEntities: seq<(string, string)> := [
    ("&nbsp;", " "), ("&amp;", "&"), ("&lt;", "<"), ("&gt;", ">"), ("&quot;", "\"")
  ]

  function DecodeBasic(s: string, table: seq<(string, string)>): string
    decreases |table|
  {
    if table == [] then s else DecodeBasic(ReplaceAll(s, table[0].0, table[0].1, false), table[1..])
  }

  /** No two neighbouring characters are both `\s`. */
  predicate NoDoubleSpace(s: string) {
    forall i :: 0 <= i < |s| - 1 ==> !(IsRegexSpace(s[i]) && IsRegexSpace(s[i + 1]))
  }

  /** `s` with every `\s` character removed. */
  function NonSpace(s: string): string
    decreases |s|
  {
    if s == [] then [] else (if IsRegexSpace(s[0]) then [] else [s[0]]) + NonSpace(s[1..])
  }

  /** The `\s+` replacement: every maximal run of `\s` becomes one space. */
  function Collapse(s: string): (r: string)
    ensures NoDoubleSpace(r)
    ensures r == [] <==> s == []
    ensures r != [] && IsRegexSpace(s[0]) ==> r[0] == ' '
    ensures r != [] && !IsRegexSpace(s[0]) ==> r[0] == s[0]
    decreases |s|
  {
    if s == [] then []
    else if !IsRegexSpace(s[0]) then [s[0]] + Collapse(s[1..])
    else
      var j := SkipWhile(s, 0, IsRegexSpace);
      [' '] + Collapse(s[j..])
  }

  lemma {:induction false} NonSpaceSkips(s: string, j: nat)
    requires j <= |s| && forall k :: 0 <= k < j ==> IsRegexSpace(s[k])
    ensures NonSpace(s) == NonSpace(s[j..])
    decreases j
  {
    if j > 0 {
      NonSpaceSkips(s[1..], j - 1);
      assert s[1..][j - 1..] == s[j..];
    }
  }

  /** Collapsing whitespace keeps every other character, in order. */
  lemma {:induction false} CollapseKeepsText(s: string)
    ensures NonSpace(Collapse(s)) == NonSpace(s)
    decreases |s|
  {
    if s != [] {
      if !IsRegexSpace(s[0]) {
        CollapseKeepsText(s[1..]);
        assert ([s[0]] + Collapse(s[1..]))[1..] == Collapse(s[1..]);
      } else {
        var j := SkipWhile(s, 0, IsRegexSpace);
        CollapseKeepsText(s[j..]);
        assert ([' '] + Collapse(s[j..]))[1..] == Collapse(s[j..]);
        NonSpaceSkips(s, j);
      }
    }
  }

  /** The whole of `stripHTML`. */
  function StripText(html: string): string {
    var noBlocks := ReplaceMatches(Block, html, 0);
    var noTags := ReplaceMatches(Tag, noBlocks, 0);
    var decoded := DecodeBasic(noTags, BasicEntities);
    Trim(Collapse(decoded), IsBlank)
  }

  /** `stripHTML`: each stage rewrites the text in turn. */
  method StripHTML(html: string) returns (result: string)
    ensures result == StripText(html)
  {
    result := html;
    // Remove script/style blocks
    result := ReplaceMatches(Block, result, 0);
    // Remove tags
    result := ReplaceMatches(Tag, result, 0);
    // Decode entities
    for k := 0 to |BasicEntities|
      invariant DecodeBasic(result, BasicEntities[k..]) == DecodeBasic(ReplaceMatches(Tag, ReplaceMatches(Block, html, 0), 0), BasicEntities)
    {
      assert BasicEntities[k..][1..] == BasicEntities[k + 1..];
      result := ReplaceAll(result, BasicEntities[k].0, BasicEntities[k].1, false);
    }
    // Collapse whitespace
    result := Collapse(result);
    result := Trim(result, IsBlank);
  }

  /**
   * The stripped text neither starts nor ends with a blank, and no two
   * neighbouring characters are both whitespace.
   */
  lemma StripTextShape(html: string)
    ensures var t := StripText(html);
            (t != [] ==> !IsBlank(t[0]) && !IsBlank(t[|t| - 1])) && NoDoubleSpace(t)
  {
    var noBlocks := ReplaceMatches(Block, html, 0);
    var noTags := ReplaceMatches(Tag, noBlocks, 0);
    var c := Collapse(DecodeBasic(noTags, BasicEntities));
    assert StripText(html) == Trim(c, IsBlank);
    TrimKeepsNoDoubleSpace(c);
  }

  /** Trimming blanks off text without double whitespace leaves no blank at either end and no double whitespace. */
  lemma TrimKeepsNoDoubleSpace(c: string)
    requires NoDoubleSpace(c)
    ensures var t := Trim(c, IsBlank);
            (t != [] ==> !IsBlank(t[0]) && !IsBlank(t[|t| - 1])) && NoDoubleSpace(t)
  {
    var t := Trim(c, IsBlank);
    var a := SkipWhile(c, 0, IsBlank);
    TrimCut(c, IsBlank);
    forall i | 0 <= i < |t| - 1 ensures !(IsRegexSpace(t[i]) && IsRegexSpace(t[i + 1])) {
      assert t[i] == c[a + i] && t[i + 1] == c[a + i + 1];
    }
  }

  /** Plain text without `<` or `&` comes out with its whitespace collapsed and trimmed, and nothing else changed. */
  lemma StripPlainText(s: string)
    requires forall i :: 0 <= i < |s| ==> s[i] != '<' && s[i] != '&'
    ensures StripText(s) == Trim(Collapse(s), IsBlank)
  {
    assert ReplaceMatches(Block, s, 0) == s by {
      ReplaceMatchesPlain(Block, s, 0);
      assert s[0..] == s;
    }
    assert ReplaceMatches(Tag, s, 0) == s by {
      ReplaceMatchesPlain(Tag, s, 0);
      assert s[0..] == s;
    }
    assert DecodeBasic(s, BasicEntities) == s by {
      BasicEntitiesAreEntities();
      NoAmpersandBasic(s, BasicEntities);
    }
  }

  lemma BasicEntitiesAreEntities()
    ensures forall e :: e in BasicEntities ==> e.0 != [] && e.0[0] == '&'
  {
  }

  lemma {:induction false} NoAmpersandBasic(s: string, table: seq<(string, string)>)
    requires forall i :: 0 <= i < |s| ==> s[i] != '&'
    requires forall e :: e in table ==> e.0 != [] && e.0[0] == '&'
    ensures DecodeBasic(s, table) == s
    decreases |table|
  {
    if table != [] {
      var pat := table[0].0;
      forall i | 0 <= i <= |s| ensures !MatchAt(s, i, pat, false) {
        if i + |pat| <= |s| {
          assert s[i..i + |pat|][0] == s[i];
        }
      }
      NoAmpersandBasic(s, table[1..]);
    }
  }

  // ---------------------------------------------------------------------
  // extractTitle
  // ---------------------------------------------------------------------

  /**
   * The lazy `(.*?)</title>` from `k` on: the text from `start` to the first
   * `</title>` (any case), provided no line terminator comes first.
   */
  function TitleContent(s: string, start: nat, k: nat): (r: Option<string>)
    requires start <= k <= |s|
    requires forall j :: start <= j < k ==> !IsNewline(s[j])
    ensures r.Some? ==> forall c :: c in r.value ==> !IsNewline(c)
    decreases |s| - k
  {
    if MatchAt(s, k, "</title>", true) then Some(s[start..k])
    else if k == |s| || IsNewline(s[k]) then None
    else TitleContent(s, start, k + 1)
  }

  /** The pattern `<title[^>]*>(.*?)</title>` tried at `i`: its captured group. */
  function TitleAt(s: string, i: nat): (r: Option<string>)
    requires i <= |s|
    ensures r.Some? ==> forall c :: c in r.value ==> !IsNewline(c)
  {
    if !MatchAt(s, i, "<title", true) then None
    else
      var gt := IndexOf(s, i + 6, '>');
      if gt == |s| then None else TitleContent(s, gt + 1, gt + 1)
  }

  /** `firstMatch`: the group of the leftmost match at or after `i`. */
  function FirstTitle(s: string, i: nat): (r: Option<string>)
    requires i <= |s|
    ensures r.Some? ==> forall c :: c in r.value ==> !IsNewline(c)
    decreases |s| - i
  {
    if i == |s| then None
    else if TitleAt(s, i).Some? then TitleAt(s, i)
    else FirstTitle(s, i + 1)
  }

  /** `extractTitle`: the first title element's text, trimmed; none when that is empty. */
  function ExtractTitle(html: string): (r: Option<string>)
    ensures r.Some? ==> r.value != []
    ensures r.Some? ==> !IsBlankOrNewline(r.value[0]) && !IsBlankOrNewline(r.value[|r.value| - 1])
    ensures r.Some? ==> forall c :: c in r.value ==> !IsNewline(c)
  {
    match FirstTitle(html, 0)
    case None => None
    case Some(t) =>
      var title := Trim(t, IsBlankOrNewline);
      if title == [] then None
      else
        TrimmedWithin(t, IsBlankOrNewline);
        Some(title)
  }

  /** Every character of a trimmed string comes from the string. */
  lemma TrimmedWithin(t: string, drop: char -> bool)
    ensures forall c :: c in Trim(t, drop) ==> c in t
  {
    var title := Trim(t, drop);
    var a := SkipWhile(t, 0, drop);
    TrimCut(t, drop);
    forall c | c in title ensures c in t {
      var k :| 0 <= k < |title| && title[k] == c;
      assert t[a + k] == c;
    }
  }

  /** A page without `<title` (in any case) has no title. */
  lemma {:induction false} NoTitleElement(s: string, i: nat)
    requires i <= |s| && forall k :: i <= k <= |s| ==> !MatchAt(s, k, "<title", true)
    ensures FirstTitle(s, i) == None
    decreases |s| - i
  {
    if i < |s| {
      NoTitleElement(s, i + 1);
    }
  }

  /**
   * A page that opens with `<title>`, text on one line without `<`, and
   * `</title>` has that text, trimmed, as its title.
   */
  lemma TitleOfSimplePage(t: string, rest: string)
    requires forall i :: 0 <= i < |t| ==> t[i] != '<' && !IsNewline(t[i])
    requires Trim(t, IsBlankOrNewline) != []
    ensures ExtractTitle("<title>" + t + "</title>" + rest) == Some(Trim(t, IsBlankOrNewline))
  {
    TitleAtSimplePage(t, rest);
  }

  lemma TitleAtSimplePage(t: string, rest: string)
    requires forall i :: 0 <= i < |t| ==> t[i] != '<' && !IsNewline(t[i])
    ensures TitleAt("<title>" + t + "</title>" + rest, 0) == Some(t)
  {
    var s := "<title>" + t + "</title>" + rest;
    assert s[0..6] == "<title";
    assert s[6] == '>';
    var e := 7 + |t|;
    assert s[e..e + 8] == "</title>";
    assert s[7..e] == t;
    assert forall k :: 7 <= k < e ==> s[k] != '<' && !IsNewline(s[k]) by {
      forall k | 7 <= k < e ensures s[k] != '<' && !IsNewline(s[k]) {
        assert s[k] == t[k - 7];
      }
    }
    NoCloseTitleIn(s, 7, e);
    TitleContentRuns(s, 7, 7, e);
  }

  /** No `</title>` starts at a character other than `<`. */
  lemma NoCloseTitleIn(s: string, from: nat, to: nat)
    requires from <= to <= |s| && forall k :: from <= k < to ==> s[k] != '<'
    ensures forall k :: from <= k < to ==> !MatchAt(s, k, "</title>", true)
  {
    forall k | from <= k < to ensures !MatchAt(s, k, "</title>", true) {
      if k + 8 <= |s| {
        assert Lower(s[k..k + 8])[0] == LowerChar(s[k]);
      }
    }
  }

  /** From `k` on, the lazy group runs to the first `</title>` after `k`. */
  lemma {:induction false} TitleContentRuns(s: string, start: nat, k: nat, e: nat)
    requires start <= k <= e && e + 8 <= |s|
    requires MatchAt(s, e, "</title>", true)
    requires forall j :: k <= j < e ==> !MatchAt(s, j, "</title>", true)
    requires forall j :: start <= j < e ==> !IsNewline(s[j])
    ensures TitleContent(s, start, k) == Some(s[start..e])
    decreases e - k
  {
    if k < e {
      TitleContentRuns(s, start, k + 1, e);
    }
  }

  // ---------------------------------------------------------------------
  // generateSnippet
  // ---------------------------------------------------------------------

  /** The window of 120 characters around a match of `query` in `text`, with ellipses. */
  function Snippet(text: string, query: string): (r: string)
  {
    var lower := Lower(text);
    match Find(lower, 0, Lower(query), false)
    case None => text[..if |text| < 120 then |text| else 120]
    case Some(idx) =>
      var start := if idx >= 40 then idx - 40 else 0;
      var end := start + (if |text| - start < 120 then |text| - start else 120);
      (if start > 0 then "..." else "") + text[start..end] + (if end < |text| then "..." else "")
  }

  /** `generateSnippet`: nothing for a page that was never indexed. */
  function GenerateSnippet(textCache: map<string, string>, path: string, query: string): (r: string)
    ensures path !in textCache ==> r == ""
  {
    if path in textCache then Snippet(textCache[path], query) else ""
  }

  /** `r` is the slice `text[start..end]` of at most 120 characters, marked with `...` where text was cut off. */
  ghost predicate Window(text: string, r: string, start: int, end: int) {
    0 <= start <= end <= |text| && end - start <= 120 &&
    (end - start == 120 || end == |text|) &&
    r == (if start > 0 then "..." else "") + text[start..end] + (if end < |text| then "..." else "")
  }

  /** Without a match: the first 120 characters (or all of a shorter text), with no ellipsis. */
  lemma SnippetWithoutMatch(text: string, query: string)
    requires forall k :: 0 <= k <= |text| ==> !MatchAt(text, k, query, true) || query == []
    ensures HasPrefix(text, Snippet(text, query))
    ensures |Snippet(text, query)| == if |text| < 120 then |text| else 120
  {
    var lower := Lower(text);
    if Find(lower, 0, Lower(query), false).Some? {
      var idx := Find(lower, 0, Lower(query), false).value;
      LowerSlice(text, idx, idx + |query|);
      LowerIdempotent(query);
      assert MatchAt(text, idx, query, true);
    }
  }

  /**
   * With a match: a window starting 40 characters before it (or at the
   * start), and when the query has at most 80 characters the whole match
   * lies inside the window.
   */
  lemma SnippetAroundMatch(text: string, query: string, idx: nat)
    requires Find(Lower(text), 0, Lower(query), false) == Some(idx)
    ensures exists start, end :: Window(text, Snippet(text, query), start, end) &&
              start == (if idx >= 40 then idx - 40 else 0) &&
              (|query| <= 80 ==> idx + |query| <= end)
  {
    var start := if idx >= 40 then idx - 40 else 0;
    var end := start + (if |text| - start < 120 then |text| - start else 120);
    assert Window(text, Snippet(text, query), start, end);
  }

  /** A found match is a case-insensitive occurrence of the query in the text. */
  lemma SnippetMatchIsOccurrence(text: string, query: string, idx: nat)
    requires Find(Lower(text), 0, Lower(query), false) == Some(idx)
    ensures MatchAt(text, idx, query, true)
  {
    LowerSlice(text, idx, idx + |query|);
    LowerIdempotent(query);
  }
}
