/**
 * The in-memory inverted index (`CHMSearchIndex`,
 * Sources/CHMKit/CHMSearchIndex.swift): word -> pages containing it, page ->
 * stripped text, page -> title, and whether the index has been built.
 * `Ingest` is the per-page step of `build`; `Build` is its loop over the
 * archive's pages; `Search` unions the postings of every key a query word
 * prefixes and intersects across the query's words.
 */
module SearchIndex {

  import opened Common
  import opened Strings
  import opened Entries
  import opened ChmFile
  import opened SearchText
  import Paths

  /** A search hit (the source's random `id` is not modelled). */
  datatype SearchResult = SearchResult(title: string, path: string, snippet: string)

  /** The three maps of the index, as one value. */
  datatype IndexState = IndexState(
    index: map<string, set<string>>,
    textCache: map<string, string>,
    titles: map<string, string>)

  /** One page to ingest: its path, title and stripped text. */
  datatype Page = Page(path: string, title: string, text: string)

  // ---------------------------------------------------------------------
  // Ingesting pages
  // ---------------------------------------------------------------------

  /** `index` after `path` has been inserted into the posting set of each of `words`, in order. */
  function Posted(index: map<string, set<string>>, words: seq<string>, path: string): map<string, set<string>>
    decreases |words|
  {
    if words == [] then index
    else
      var before := Posted(index, words[..|words| - 1], path);
      var w := words[|words| - 1];
      before[w := (if w in before then before[w] else {}) + {path}]
  }

  /** Posting `words`: the keys are the old keys plus the words, and each word's set gains exactly `path`. */
  lemma {:induction false} PostedMeans(index: map<string, set<string>>, words: seq<string>, path: string)
    ensures var r := Posted(index, words, path);
            (forall k :: k in r <==> k in index || k in words) &&
            (forall k :: k in r ==> r[k] == (if k in index then index[k] else {}) + (if k in words then {path} else {}))
    decreases |words|
  {
    if words != [] {
      var init := words[..|words| - 1];
      PostedMeans(index, init, path);
      assert words == init + [words[|words| - 1]];
    }
  }

  lemma PostedSnoc(index: map<string, set<string>>, words: seq<string>, w: string, path: string)
    ensures var before := Posted(index, words, path);
            Posted(index, words + [w], path) == before[w := (if w in before then before[w] else {}) + {path}]
  {
    assert (words + [w])[..|words|] == words;
  }

  /** The source's `for word in words { index[word, default: []].insert(path) }`. */
  method PostAll(index0: map<string, set<string>>, words: seq<string>, path: string) returns (index: map<string, set<string>>)
    ensures index == Posted(index0, words, path)
  {
    index := index0;
    for i := 0 to |words|
      invariant index == Posted(index0, words[..i], path)
    {
      assert words[..i + 1] == words[..i] + [words[i]];
      PostedSnoc(index0, words[..i], words[i], path);
      var postings := if words[i] in index then index[words[i]] else {};
      index := index[words[i] := postings + {path}];
    }
    assert words[..|words|] == words;
  }

  /** One page: its title and text are recorded and its path posted under each of its words. */
  function IngestPage(st: IndexState, p: Page): IndexState {
    IndexState(Posted(st.index, Tokenize(p.text), p.path), st.textCache[p.path := p.text], st.titles[p.path := p.title])
  }

  /**
   * After ingesting a page, its path is posted under every word of its
   * text, no other key gains it, and every posting that was there stays.
   */
  lemma IngestPostsEveryWord(st: IndexState, p: Page)
    ensures var r := IngestPage(st, p);
            (forall w :: w in Tokenize(p.text) ==> w in r.index && p.path in r.index[w]) &&
            (forall k :: k in st.index ==> k in r.index && st.index[k] <= r.index[k]) &&
            (forall k, q :: k in r.index && q in r.index[k] && q != p.path ==> k in st.index && q in st.index[k]) &&
            (forall k :: k in r.index && k !in Tokenize(p.text) ==> k in st.index && r.index[k] == st.index[k])
  {
    PostedMeans(st.index, Tokenize(p.text), p.path);
  }

  /** The text decoded as the source does: UTF-8, else Windows-1252, else empty. */
  function DecodeHTML(codec: TextCodec, data: Bytes): string {
    codec.utf8(data).GetOr(codec.cp1252(data).GetOr(""))
  }

  /** What `build` ingests for one entry: nothing when extraction fails. */
  function PageOf(a: Archive, codec: TextCodec, e: Entry): (r: Option<Page>)
    ensures r.Some? <==> ExtractData(a, e).Ok?
    ensures r.Some? ==> r.value.path == e.path
  {
    match ExtractData(a, e)
    case Err(_) => None
    case Ok(data) =>
      var html := DecodeHTML(codec, data);
      Some(Page(e.path, ExtractTitle(html).GetOr(e.Filename()), StripText(html)))
  }

  /** A page's title is its title element's text, or its file name when it has none. */
  lemma PageTitle(a: Archive, codec: TextCodec, e: Entry)
    requires PageOf(a, codec, e).Some?
    ensures var html := DecodeHTML(codec, ExtractData(a, e).value);
            PageOf(a, codec, e).value.title == (if ExtractTitle(html).Some? then ExtractTitle(html).value else e.Filename())
    ensures PageOf(a, codec, e).value.text == StripText(DecodeHTML(codec, ExtractData(a, e).value))
  {
  }

  /** What `build` reads from each entry, in order. */
  function PagesOf(a: Archive, codec: TextCodec, entries: seq<Entry>): (r: seq<Option<Page>>)
    ensures |r| == |entries|
    ensures forall k :: 0 <= k < |entries| ==> r[k] == PageOf(a, codec, entries[k])
  {
    seq(|entries|, k requires 0 <= k < |entries| => PageOf(a, codec, entries[k]))
  }

  /** The state after ingesting `pages` in order, skipping the entries that failed to extract. */
  function IngestAll(st: IndexState, pages: seq<Option<Page>>): IndexState
    decreases |pages|
  {
    if pages == [] then st
    else
      var before := IngestAll(st, pages[..|pages| - 1]);
      match pages[|pages| - 1]
      case None => before
      case Some(p) => IngestPage(before, p)
  }

  /** Ingesting never removes a posting. */
  lemma {:induction false} IngestAllKeepsPostings(st: IndexState, pages: seq<Option<Page>>)
    ensures var r := IngestAll(st, pages);
            forall k :: k in st.index ==> k in r.index && st.index[k] <= r.index[k]
    decreases |pages|
  {
    if pages != [] {
      var init := pages[..|pages| - 1];
      IngestAllKeepsPostings(st, init);
      var last := pages[|pages| - 1];
      if last.Some? {
        IngestPostsEveryWord(IngestAll(st, init), last.value);
      }
    }
  }

  /** After `build`, every page that extracted is findable under every word of its text. */
  lemma {:induction false} IngestAllIndexesEveryPage(st: IndexState, pages: seq<Option<Page>>, i: nat)
    requires i < |pages| && pages[i].Some?
    ensures var r := IngestAll(st, pages);
            forall w :: w in Tokenize(pages[i].value.text) ==> w in r.index && pages[i].value.path in r.index[w]
    decreases |pages|
  {
    var init := pages[..|pages| - 1];
    var last := pages[|pages| - 1];
    if i == |pages| - 1 {
      IngestPostsEveryWord(IngestAll(st, init), last.value);
    } else {
      assert init[i] == pages[i];
      IngestAllIndexesEveryPage(st, init, i);
      if last.Some? {
        IngestPostsEveryWord(IngestAll(st, init), last.value);
      }
    }
  }

  /**
   * After `build`, a page's text and title are recorded, unless a later
   * entry with the same path that extracted replaced them.
   */
  lemma {:induction false} IngestAllRecordsPage(st: IndexState, pages: seq<Option<Page>>, i: nat)
    requires i < |pages| && pages[i].Some?
    requires forall j :: i < j < |pages| && pages[j].Some? ==> pages[j].value.path != pages[i].value.path
    ensures var r := IngestAll(st, pages);
            var p := pages[i].value;
            p.path in r.textCache && r.textCache[p.path] == p.text && p.path in r.titles && r.titles[p.path] == p.title
    decreases |pages|
  {
    var init := pages[..|pages| - 1];
    if i < |pages| - 1 {
      assert init[i] == pages[i];
      IngestAllRecordsPage(st, init, i);
    }
  }

  // ---------------------------------------------------------------------
  // Searching
  // ---------------------------------------------------------------------

  /** The union of the posting sets of every key that `word` prefixes. */
  function PrefixMatches(index: map<string, set<string>>, word: string): set<string> {
    set k, p | k in index && HasPrefix(k, word) && p in index[k] :: p
  }

  /** The source's fold over the query words: the first word's matches, then intersections. */
  function MatchAll(index: map<string, set<string>>, words: seq<string>): set<string>
    requires words != []
    decreases |words|
  {
    if |words| == 1 then PrefixMatches(index, words[0])
    else MatchAll(index, words[..|words| - 1]) * PrefixMatches(index, words[|words| - 1])
  }

  /** Some indexed key that `word` prefixes has `path` in its posting set. */
  ghost predicate Hit(index: map<string, set<string>>, word: string, path: string) {
    exists k :: k in index && HasPrefix(k, word) && path in index[k]
  }

  /** A path matches exactly when every query word prefixes some key that has it. */
  lemma {:induction false} MatchAllMeans(index: map<string, set<string>>, words: seq<string>, path: string)
    requires words != []
    ensures path in MatchAll(index, words) <==> forall i :: 0 <= i < |words| ==> Hit(index, words[i], path)
    decreases |words|
  {
    if |words| > 1 {
      var init := words[..|words| - 1];
      MatchAllMeans(index, init, path);
      assert forall i :: 0 <= i < |init| ==> init[i] == words[i];
    }
  }

  /** A query word that prefixes no indexed key matches nothing, so the whole query matches nothing. */
  lemma UnknownWordMatchesNothing(index: map<string, set<string>>, words: seq<string>, i: nat)
    requires i < |words| && forall k :: k in index ==> !HasPrefix(k, words[i])
    ensures MatchAll(index, words) == {}
  {
    forall path ensures path !in MatchAll(index, words) {
      MatchAllMeans(index, words, path);
      assert !Hit(index, words[i], path);
    }
  }

  /** More words can only narrow the matches. */
  lemma MoreWordsNarrow(index: map<string, set<string>>, words: seq<string>, more: seq<string>)
    requires words != []
    ensures MatchAll(index, words + more) <= MatchAll(index, words)
  {
    forall path | path in MatchAll(index, words + more) ensures path in MatchAll(index, words) {
      MatchAllMeans(index, words + more, path);
      MatchAllMeans(index, words, path);
      assert forall i :: 0 <= i < |words| ==> (words + more)[i] == words[i];
    }
  }

  /** The title shown for a path: the recorded title, else the path's last component. */
  function TitleFor(titles: map<string, string>, path: string): (t: string)
    ensures path in titles ==> t == titles[path]
    ensures path !in titles ==> t == Paths.LastPathComponent(path)
  {
    if path in titles then titles[path] else Paths.LastPathComponent(path)
  }

  function ResultTitle(r: SearchResult): string {
    r.title
  }

  function PathsOf(results: seq<SearchResult>): set<string> {
    set r | r in results :: r.path
  }

  // ---------------------------------------------------------------------
  // The index
  // ---------------------------------------------------------------------

  class SearchIndex {
    /** word -> paths of the pages containing it */
    var index: map<string, set<string>>
    /** path -> stripped text, for snippets */
    var textCache: map<string, string>
    /** path -> title */
    var titles: map<string, string>
    var isBuilt: bool

    constructor()
      ensures index == map[] && textCache == map[] && titles == map[] && !isBuilt
    {
      index := map[];
      textCache := map[];
      titles := map[];
      isBuilt := false;
    }

    function State(): IndexState
      reads this
    {
      IndexState(index, textCache, titles)
    }

    /** The per-page step of `build`: record title and text, post the path under each word. */
    method Ingest(path: string, title: string, text: string)
      modifies this
      ensures State() == IngestPage(old(State()), Page(path, title, text))
      ensures isBuilt == old(isBuilt)
    {
      titles := titles[path := title];
      textCache := textCache[path := text];
      var words := Tokenize(text);
      index := PostAll(index, words, path);
    }

    /** `build`: ingest every HTML file that extracts, then mark the index built. */
    method Build(a: Archive, codec: TextCodec)
      modifies this
      ensures State() == IngestAll(old(State()), PagesOf(a, codec, HtmlEntries(a.files)))
      ensures isBuilt
    {
      var htmlEntries := HtmlEntries(a.files);
      for i := 0 to |htmlEntries|
        invariant State() == IngestAll(old(State()), PagesOf(a, codec, htmlEntries)[..i])
      {
        assert PagesOf(a, codec, htmlEntries)[..i + 1][..i] == PagesOf(a, codec, htmlEntries)[..i];
        var entry := htmlEntries[i];
        var data := ExtractData(a, entry);
        if data.Err? {
          continue;
        }
        var html := DecodeHTML(codec, data.value);
        var title := ExtractTitle(html).GetOr(entry.Filename());
        var text := StripHTML(html);
        Ingest(entry.path, title, text);
      }
      assert PagesOf(a, codec, htmlEntries)[..|htmlEntries|] == PagesOf(a, codec, htmlEntries);
      isBuilt := true;
    }

    /** The union of the posting sets of the keys `word` prefixes, key by key. */
    method PrefixMatchesOf(word: string) returns (matches: set<string>)
      ensures matches == PrefixMatches(index, word)
    {
      matches := {};
      var keys := index.Keys;
      while keys != {}
        invariant keys <= index.Keys
        invariant matches == set k, p | k in index && k !in keys && HasPrefix(k, word) && p in index[k] :: p
        decreases |keys|
      {
        var key :| key in keys;
        if HasPrefix(key, word) {
          matches := matches + index[key];
        }
        keys := keys - {key};
      }
    }

    /** The loop of `search` that intersects the result sets of all query words. */
    method MatchingPaths(queryWords: seq<string>) returns (paths: set<string>)
      requires queryWords != []
      ensures paths == MatchAll(index, queryWords)
    {
      var matchingPaths: Option<set<string>> := None;
      for i := 0 to |queryWords|
        invariant i == 0 <==> matchingPaths.None?
        invariant i > 0 ==> matchingPaths.value == MatchAll(index, queryWords[..i])
      {
        var matches := PrefixMatchesOf(queryWords[i]);
        assert queryWords[..i + 1][..i] == queryWords[..i];
        if matchingPaths.None? {
          matchingPaths := Some(matches);
        } else {
          matchingPaths := Some(matchingPaths.value * matches);
        }
      }
      assert queryWords[..|queryWords|] == queryWords;
      paths := matchingPaths.value;
    }

    /**
     * `search`: no query words, no results; otherwise every page that each
     * word matches by prefix, once, with its title and snippet, sorted by title.
     */
    method Search(query: string) returns (results: seq<SearchResult>)
      ensures Tokenize(query) == [] ==> results == []
      ensures Tokenize(query) != [] ==> PathsOf(results) == MatchAll(index, Tokenize(query))
      ensures forall i, j :: 0 <= i < j < |results| ==> results[i].path != results[j].path
      ensures forall r :: r in results ==> r == ResultFor(titles, textCache, r.path, query)
      ensures SortedBy(results, ResultTitle)
    {
      var queryWords := Tokenize(query);
      if queryWords == [] {
        return [];
      }
      var paths := MatchingPaths(queryWords);
      results := RankedResults(titles, textCache, paths, query);
    }
  }

  /** The results for a set of paths, one per path, sorted by title. */
  method RankedResults(titles: map<string, string>, textCache: map<string, string>, paths: set<string>, query: string)
    returns (results: seq<SearchResult>)
    ensures PathsOf(results) == paths
    ensures forall i, j :: 0 <= i < j < |results| ==> results[i].path != results[j].path
    ensures forall r :: r in results ==> r == ResultFor(titles, textCache, r.path, query)
    ensures SortedBy(results, ResultTitle)
  {
    var unsorted := ResultsFor(titles, textCache, paths, query);
    results := SortBy(unsorted, ResultTitle);
    assert forall r :: r in results ==> r in multiset(unsorted);
    assert forall r :: r in unsorted ==> r in multiset(results);
    NoDuplicatePaths(unsorted, results);
  }

  /** The paths of a set, each once, in whatever order the set yields them. */
  method Enumerate(paths: set<string>) returns (ps: seq<string>)
    ensures forall p :: p in ps <==> p in paths
    ensures forall i, j :: 0 <= i < j < |ps| ==> ps[i] != ps[j]
  {
    ps := [];
    var remaining := paths;
    while remaining != {}
      invariant remaining <= paths
      invariant forall p :: p in ps <==> p in paths && p !in remaining
      invariant forall i, j :: 0 <= i < j < |ps| ==> ps[i] != ps[j]
      decreases |remaining|
    {
      var path :| path in remaining;
      ps := ps + [path];
      remaining := remaining - {path};
    }
  }

  /** One result for `path`: its title, or its last path component, and its snippet. */
  function ResultFor(titles: map<string, string>, textCache: map<string, string>, path: string, query: string): (r: SearchResult)
    ensures r.path == path
    ensures r.title == TitleFor(titles, path)
    ensures path !in textCache ==> r.snippet == ""
  {
    SearchResult(TitleFor(titles, path), path, GenerateSnippet(textCache, path, query))
  }

  /** The source's `compactMap` over the matching paths. */
  method ResultsFor(titles: map<string, string>, textCache: map<string, string>, paths: set<string>, query: string) returns (unsorted: seq<SearchResult>)
    ensures PathsOf(unsorted) == paths
    ensures forall i, j :: 0 <= i < j < |unsorted| ==> unsorted[i].path != unsorted[j].path
    ensures forall r :: r in unsorted ==> r == ResultFor(titles, textCache, r.path, query)
  {
    var ps := Enumerate(paths);
    unsorted := seq(|ps|, k requires 0 <= k < |ps| => ResultFor(titles, textCache, ps[k], query));
    assert forall k :: 0 <= k < |ps| ==> unsorted[k].path == ps[k];
    assert forall p :: p in paths ==> p in PathsOf(unsorted) by {
      forall p | p in paths ensures p in PathsOf(unsorted) {
        var k :| 0 <= k < |ps| && ps[k] == p;
        assert unsorted[k] in unsorted;
      }
    }
  }

  /** Sorting a list whose paths are distinct keeps them distinct. */
  lemma NoDuplicatePaths(xs: seq<SearchResult>, ys: seq<SearchResult>)
    requires multiset(ys) == multiset(xs)
    requires forall i, j :: 0 <= i < j < |xs| ==> xs[i].path != xs[j].path
    ensures forall i, j :: 0 <= i < j < |ys| ==> ys[i].path != ys[j].path
    ensures PathsOf(ys) == PathsOf(xs)
  {
    assert forall r :: r in ys <==> r in xs by {
      forall r ensures r in ys <==> r in xs {
        assert r in ys <==> r in multiset(ys);
        assert r in xs <==> r in multiset(xs);
      }
    }
    forall i, j | 0 <= i < j < |ys| ensures ys[i].path != ys[j].path {
      if ys[i].path == ys[j].path {
        assert ys[i] in multiset(ys) && ys[j] in multiset(ys);
        var a :| 0 <= a < |xs| && xs[a] == ys[i];
        var b :| 0 <= b < |xs| && xs[b] == ys[j];
        if a == b {
          MultisetCountsOne(xs, a);
          MultisetCountsTwo(ys, i, j);
        }
        assert false;
      }
    }
  }

  lemma MultisetCountsTwo<T>(s: seq<T>, i: nat, j: nat)
    requires i < j < |s| && s[i] == s[j]
    ensures multiset(s)[s[i]] >= 2
  {
    assert s == s[..i] + [s[i]] + s[i + 1..j] + [s[j]] + s[j + 1..];
  }

  lemma MultisetCountsOne(s: seq<SearchResult>, a: nat)
    requires a < |s| && forall i, j :: 0 <= i < j < |s| ==> s[i].path != s[j].path
    ensures multiset(s)[s[a]] == 1
  {
    assert s == s[..a] + [s[a]] + s[a + 1..];
    assert s[a] !in s[..a] by {
      forall k | 0 <= k < a ensures s[k] != s[a] {
        assert s[k].path != s[a].path;
      }
    }
    assert s[a] !in s[a + 1..] by {
      forall k | a + 1 <= k < |s| ensures s[k] != s[a] {
        assert s[a].path != s[k].path;
      }
    }
    assert multiset(s[..a])[s[a]] == 0;
    assert multiset(s[a + 1..])[s[a]] == 0;
  }
}
