/**
 * The reader window's state (`CHMViewModel`,
 * Sources/CHMReader/CHMViewModel.swift): loading the table of contents with
 * its flat fallback, choosing the first page to show, planning the export
 * of every entry, and the synchronous part of searching.
 */
module ViewModel {

  import opened Common
  import opened Strings
  import opened Entries
  import opened ChmFile
  import opened TableOfContents
  import SearchIndex
  import SearchText
  import Paths

  // ---------------------------------------------------------------------
  // firstLeafPath
  // ---------------------------------------------------------------------

  /** `firstLeafPath(in:)`: a node's own path wins over its descendants', which win over its later siblings'. */
  function FirstLeafPath(nodes: seq<TOCNode>): Option<string>
    decreases nodes
  {
    if nodes == [] then None
    else if nodes[0].path.Some? then nodes[0].path
    else
      match FirstLeafPath(nodes[0].children)
      case Some(p) => Some(p)
      case None => FirstLeafPath(nodes[1..])
  }

  /** Every path of a forest in pre-order: a node, then its subtree, then its later siblings. */
  function PreorderPaths(nodes: seq<TOCNode>): seq<string>
    decreases nodes
  {
    if nodes == [] then []
    else
      (if nodes[0].path.Some? then [nodes[0].path.value] else []) +
      PreorderPaths(nodes[0].children) + PreorderPaths(nodes[1..])
  }

  /** `firstLeafPath` is the first path in pre-order, and nil exactly when no node has a path. */
  lemma {:induction false} FirstLeafIsFirstInPreorder(nodes: seq<TOCNode>)
    ensures FirstLeafPath(nodes) == if PreorderPaths(nodes) == [] then None else Some(PreorderPaths(nodes)[0])
    decreases nodes
  {
    if nodes != [] && nodes[0].path.None? {
      FirstLeafIsFirstInPreorder(nodes[0].children);
      FirstLeafIsFirstInPreorder(nodes[1..]);
    }
  }

  // ---------------------------------------------------------------------
  // buildFlatTOC
  // ---------------------------------------------------------------------

  function EntryPath(e: Entry): string {
    e.path
  }

  /** The path a flat node is sorted by. */
  function NodePath(n: TOCNode): string {
    n.path.GetOr("")
  }

  /** A page as a childless node titled by its file name. */
  function FlatNode(e: Entry): TOCNode {
    TOCNode(e.Filename(), Some(e.path), [])
  }

  /** Each entry as a flat node, in order. */
  function FlatNodes(es: seq<Entry>): (r: seq<TOCNode>)
    ensures |r| == |es|
    ensures forall i :: 0 <= i < |es| ==> r[i] == FlatNode(es[i])
  {
    seq(|es|, i requires 0 <= i < |es| => FlatNode(es[i]))
  }

  lemma FlatNodesKeepOrder(es: seq<Entry>)
    requires SortedBy(es, EntryPath)
    ensures SortedBy(FlatNodes(es), NodePath)
  {
    var r := FlatNodes(es);
    forall i, j | 0 <= i < j < |r| ensures CaseInsensitiveLeq(NodePath(r[i]), NodePath(r[j])) {
      assert NodePath(r[i]) == EntryPath(es[i]) && NodePath(r[j]) == EntryPath(es[j]);
    }
  }

  /** Distinct entries give distinct flat nodes: a node's path is its entry's. */
  lemma FlatNodeInjective(d: Entry, e: Entry)
    ensures FlatNode(d) == FlatNode(e) <==> d == e
  {
    if FlatNode(d) == FlatNode(e) {
      assert Some(d.path) == Some(e.path);
    }
  }

  /** Each entry's node occurs among the flat nodes exactly as often as the entry among the entries. */
  lemma {:induction false} FlatNodesCount(es: seq<Entry>, e: Entry)
    ensures multiset(FlatNodes(es))[FlatNode(e)] == multiset(es)[e]
    decreases |es|
  {
    if es != [] {
      var n := |es| - 1;
      var init := es[..n];
      assert es == init + [es[n]];
      assert FlatNodes(es) == FlatNodes(init) + [FlatNode(es[n])];
      FlatNodesCount(init, e);
      FlatNodeInjective(es[n], e);
    }
  }

  /** A permutation of the HTML entries of `all` holds exactly the HTML entries of `all`. */
  lemma PermutedHtmlEntries(es: seq<Entry>, all: seq<Entry>)
    requires multiset(es) == multiset(HtmlEntries(all))
    ensures forall e :: e in es <==> e in all && e.IsHTML()
  {
    forall e ensures e in es <==> e in all && e.IsHTML() {
      assert e in es <==> e in multiset(es);
      assert e in HtmlEntries(all) <==> e in multiset(HtmlEntries(all));
    }
  }

  lemma FlatNodesOfPermutation(es: seq<Entry>, all: seq<Entry>)
    requires forall e :: e in es <==> e in all && e.IsHTML()
    ensures forall n :: n in FlatNodes(es) ==>
              n.children == [] && n.path.Some? && Entry(n.path.value) in all &&
              Entry(n.path.value).IsHTML() && n.title == Paths.LastPathComponent(n.path.value)
    ensures forall e :: e in all && e.IsHTML() ==> FlatNode(e) in FlatNodes(es)
  {
    var r := FlatNodes(es);
    forall i | 0 <= i < |r|
      ensures r[i].path == Some(es[i].path) && Entry(es[i].path) == es[i] && es[i] in es
    {
    }
    forall e | e in all && e.IsHTML() ensures FlatNode(e) in r {
      var i :| 0 <= i < |es| && es[i] == e;
      assert r[i] == FlatNode(e);
    }
  }

  /**
   * `buildFlatTOC`: one childless node per HTML entry, titled by its file
   * name, sorted by path ignoring case.
   */
  function BuildFlatTOC(a: Archive): (r: seq<TOCNode>)
    ensures |r| == |HtmlEntries(a.allEntries)|
    ensures forall n :: n in r ==>
              n.children == [] && n.path.Some? && Entry(n.path.value) in a.allEntries &&
              Entry(n.path.value).IsHTML() && n.title == Paths.LastPathComponent(n.path.value)
    ensures forall e :: e in a.allEntries && e.IsHTML() ==> FlatNode(e) in r
    ensures forall e :: multiset(r)[FlatNode(e)] == multiset(HtmlEntries(a.allEntries))[e]
    ensures SortedBy(r, NodePath)
  {
    var sorted := SortBy(HtmlEntries(a.allEntries), EntryPath);
    FlatNodesKeepOrder(sorted);
    PermutedHtmlEntries(sorted, a.allEntries);
    FlatNodesOfPermutation(sorted, a.allEntries);
    forall e ensures multiset(FlatNodes(sorted))[FlatNode(e)] == multiset(HtmlEntries(a.allEntries))[e] {
      FlatNodesCount(sorted, e);
    }
    assert |sorted| == |HtmlEntries(a.allEntries)| by {
      assert |multiset(sorted)| == |multiset(HtmlEntries(a.allEntries))|;
    }
    FlatNodes(sorted)
  }

  // ---------------------------------------------------------------------
  // loadTOC
  // ---------------------------------------------------------------------

  /** The table of contents `loadTOC` shows: the parsed `.hhc`, or the flat list when there is none or it fails. */
  function LoadedTOC(a: Archive, codec: TextCodec): seq<TOCNode> {
    match FindHHCPath(a)
    case None => BuildFlatTOC(a)
    case Some(hhc) =>
      match ExtractDataAt(a, hhc)
      case Err(_) => BuildFlatTOC(a)
      case Ok(data) =>
        if codec.utf8(data).Some? then ParseSpec(codec.utf8(data).value)
        else if codec.cp1252(data).Some? then ParseSpec(codec.cp1252(data).value)
        else BuildFlatTOC(a)
  }

  /** The `do`/`catch` of `loadTOC`: the parsed HHC file, or the flat list when it cannot be read or decoded. */
  method ParsedOrFlatTOC(a: Archive, codec: TextCodec, hhc: string) returns (nodes: seq<TOCNode>)
    requires FindHHCPath(a) == Some(hhc)
    ensures nodes == LoadedTOC(a, codec)
  {
    var data := ExtractDataAt(a, hhc);
    if data.Err? {
      return BuildFlatTOC(a);
    }
    var parsed := ParseData(data.value, codec);
    if parsed.Err? {
      return BuildFlatTOC(a);
    }
    return parsed.value;
  }

  /** The page `loadTOC` selects when nothing is selected yet. */
  function DefaultSelection(a: Archive, codec: TextCodec, toc: seq<TOCNode>): Option<string> {
    match FindDefaultPage(a, codec.utf8)
    case Some(page) => Some(page)
    case None => FirstLeafPath(toc)
  }

  /**
   * The default selection is the `#SYSTEM` topic, else a conventional
   * default page that exists, else the first path of the table of contents
   * in pre-order; it is nil only when none of these exists.
   */
  lemma DefaultSelectionIsAPage(a: Archive, codec: TextCodec, toc: seq<TOCNode>)
    ensures var s := DefaultSelection(a, codec, toc);
            (SystemTopicOf(a, codec.utf8).Some? ==> s == SystemTopicOf(a, codec.utf8)) &&
            (s.Some? ==> s == SystemTopicOf(a, codec.utf8) ||
                         (s.value in DefaultCandidates && s.value in a.objects) ||
                         (PreorderPaths(toc) != [] && s.value == PreorderPaths(toc)[0])) &&
            (s.None? <==> SystemTopicOf(a, codec.utf8).None? &&
                          (forall c :: c in DefaultCandidates ==> c !in a.objects) && PreorderPaths(toc) == [])
  {
    FirstLeafIsFirstInPreorder(toc);
  }

  /** When the archive has no `.hhc`, or it cannot be read or decoded, every HTML page is listed. */
  lemma FallbackListsEveryPage(a: Archive, codec: TextCodec)
    requires FindHHCPath(a).None? || ExtractDataAt(a, FindHHCPath(a).value).Err? ||
             (codec.utf8(ExtractDataAt(a, FindHHCPath(a).value).value).None? &&
              codec.cp1252(ExtractDataAt(a, FindHHCPath(a).value).value).None?)
    ensures forall e :: e in a.allEntries && e.IsHTML() ==> FlatNode(e) in LoadedTOC(a, codec)
    ensures |LoadedTOC(a, codec)| == |HtmlEntries(a.allEntries)|
    ensures forall e :: multiset(LoadedTOC(a, codec))[FlatNode(e)] == multiset(HtmlEntries(a.allEntries))[e]
  {
  }

  // ---------------------------------------------------------------------
  // exportAll
  // ---------------------------------------------------------------------

  /** The entry path with one leading "/" dropped. */
  function RelativePath(path: string): (r: string)
    ensures HasPrefix(path, "/") ==> "/" + r == path
    ensures !HasPrefix(path, "/") ==> r == path
  {
    if HasPrefix(path, "/") then path[1..] else path
  }

  /** One file `exportAll` writes, relative to the chosen directory. */
  datatype Export = Export(relativePath: string, data: Bytes)

  /** What exporting `entries` writes, in order: every entry that extracts and has a non-empty relative path. */
  function ExportPlan(a: Archive, entries: seq<Entry>): seq<Export>
    decreases |entries|
  {
    if entries == [] then []
    else
      var before := ExportPlan(a, entries[..|entries| - 1]);
      var e := entries[|entries| - 1];
      match ExtractData(a, e)
      case Err(_) => before
      case Ok(data) =>
        if RelativePath(e.path) == "" then before else before + [Export(RelativePath(e.path), data)]
  }

  /**
   * Every write names a non-empty relative path and carries the bytes of
   * an entry whose path is that relative path, with or without one "/" in
   * front.
   */
  lemma {:induction false} ExportWritesEntries(a: Archive, entries: seq<Entry>)
    ensures forall x :: x in ExportPlan(a, entries) ==>
              x.relativePath != "" &&
              exists e :: e in entries && RelativePath(e.path) == x.relativePath && ExtractData(a, e) == Ok(x.data)
    decreases |entries|
  {
    if entries != [] {
      var init := entries[..|entries| - 1];
      ExportWritesEntries(a, init);
      assert forall e :: e in init ==> e in entries;
    }
  }

  /** Every entry that extracts and has a non-empty relative path is written. */
  lemma {:induction false} ExportCoversEntries(a: Archive, entries: seq<Entry>)
    ensures forall e :: e in entries && ExtractData(a, e).Ok? && RelativePath(e.path) != "" ==>
              Export(RelativePath(e.path), ExtractData(a, e).value) in ExportPlan(a, entries)
    decreases |entries|
  {
    if entries != [] {
      var init := entries[..|entries| - 1];
      ExportCoversEntries(a, init);
      assert forall e :: e in entries ==> e in init || e == entries[|entries| - 1];
    }
  }

  /** The loop of `exportAll` over every entry of the archive. */
  method ExportAll(a: Archive) returns (writes: seq<Export>)
    ensures writes == ExportPlan(a, a.allEntries)
  {
    writes := [];
    var entries := a.allEntries;
    for i := 0 to |entries|
      invariant writes == ExportPlan(a, entries[..i])
    {
      assert entries[..i + 1][..i] == entries[..i];
      var entry := entries[i];
      var data := ExtractData(a, entry);
      if data.Err? {
        continue;
      }
      var relativePath := if HasPrefix(entry.path, "/") then entry.path[1..] else entry.path;
      if relativePath == "" {
        continue;
      }
      writes := writes + [Export(relativePath, data.value)];
    }
    assert entries[..|entries|] == entries;
  }

  // ---------------------------------------------------------------------
  // The view model
  // ---------------------------------------------------------------------

  /** A scheduled search: its identity and its trimmed query. */
  datatype SearchTask = SearchTask(id: nat, query: string)

  class ViewModel {
    const archive: Archive
    const codec: TextCodec
    var tocNodes: seq<TOCNode>
    var selectedPath: Option<string>
    var searchText: string
    var searchResults: seq<SearchIndex.SearchResult>
    var isSearching: bool
    /** The search task not yet cancelled, if any. */
    var searchTask: Option<SearchTask>
    /** The identity the next search task gets. */
    var nextTask: nat

    /** `init(chmFile:)`: load the table of contents and select the default page. */
    constructor(archive: Archive, codec: TextCodec)
      ensures this.archive == archive && this.codec == codec
      ensures tocNodes == LoadedTOC(archive, codec)
      ensures selectedPath == if FindHHCPath(archive).None? then None else DefaultSelection(archive, codec, tocNodes)
      ensures searchText == "" && searchResults == [] && !isSearching && searchTask == None
    {
      this.archive := archive;
      this.codec := codec;
      tocNodes := [];
      selectedPath := None;
      searchText := "";
      searchResults := [];
      isSearching := false;
      searchTask := None;
      nextTask := 0;
      new;
      LoadTOC();
    }

    /**
     * `loadTOC`: the parsed `.hhc` or the flat fallback; when an `.hhc`
     * exists and nothing is selected, select the default page.
     */
    method LoadTOC()
      modifies this
      ensures tocNodes == LoadedTOC(archive, codec)
      ensures selectedPath ==
                if FindHHCPath(archive).None? || old(selectedPath).Some? then old(selectedPath)
                else DefaultSelection(archive, codec, tocNodes)
      ensures searchText == old(searchText) && searchResults == old(searchResults) && isSearching == old(isSearching)
      ensures searchTask == old(searchTask) && nextTask == old(nextTask)
    {
      var hhcPath := FindHHCPath(archive);
      if hhcPath.None? {
        tocNodes := BuildFlatTOC(archive);
        return;
      }
      tocNodes := ParsedOrFlatTOC(archive, codec, hhcPath.value);
      if selectedPath.None? {
        var page := FindDefaultPage(archive, codec.utf8);
        selectedPath := if page.Some? then page else FirstLeafPath(tocNodes);
      }
    }

    /**
     * `performSearch`: cancel the pending search; a query blank after
     * trimming clears the results, anything else schedules a search for
     * the trimmed query.
     */
    method PerformSearch()
      modifies this
      ensures var query := Trim(old(searchText), IsBlank);
              if query == [] then
                searchResults == [] && !isSearching && searchTask == None && nextTask == old(nextTask)
              else
                isSearching && searchTask == Some(SearchTask(old(nextTask), query)) &&
                nextTask == old(nextTask) + 1 && searchResults == old(searchResults)
      ensures tocNodes == old(tocNodes) && selectedPath == old(selectedPath) && searchText == old(searchText)
    {
      var query := Trim(searchText, IsBlank);
      searchTask := None;
      if query == [] {
        searchResults := [];
        isSearching := false;
        return;
      }
      isSearching := true;
      searchTask := Some(SearchTask(nextTask, query));
      nextTask := nextTask + 1;
    }

    /**
     * The body of a search task once its debounce has elapsed: a cancelled
     * task only clears `isSearching`; a live one publishes the index's
     * results for its query.
     */
    method RunSearchTask(task: SearchTask, index: SearchIndex.SearchIndex)
      modifies this
      ensures !isSearching
      ensures old(searchTask) != Some(task) ==> searchResults == old(searchResults)
      ensures old(searchTask) == Some(task) && SearchText.Tokenize(task.query) == [] ==> searchResults == []
      ensures old(searchTask) == Some(task) && SearchText.Tokenize(task.query) != [] ==>
                SearchIndex.PathsOf(searchResults) == SearchIndex.MatchAll(index.index, SearchText.Tokenize(task.query))
      ensures old(searchTask) == Some(task) ==> SortedBy(searchResults, SearchIndex.ResultTitle)
      ensures tocNodes == old(tocNodes) && selectedPath == old(selectedPath) && searchText == old(searchText)
      ensures searchTask == old(searchTask) && nextTask == old(nextTask)
    {
      if searchTask != Some(task) {
        isSearching := false;
        return;
      }
      var results := index.Search(task.query);
      searchResults := results;
      isSearching := false;
    }
  }
}
