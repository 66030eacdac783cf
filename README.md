# A verified model of the core of slop-chm

slop-chm is a macOS viewer for Microsoft Compiled HTML Help (`.chm`) files.
This project models its core in Dafny and proves properties of the model:

- the `.hhc` table-of-contents parser;
- the in-memory full-text search index;
- the archive queries of `CHMFile` above CHMLib: entries, the `.hhc` path, the `#SYSTEM` default topic, the default page;
- the reader's view model: table of contents with its flat fallback, default selection, export of every entry, search scheduling;
- the sidebar tree: visible rows, expansion, selection, taps;
- the `chm-internal://` scheme handler, which serves archive content to the web view;
- the web-view holder, which navigates to an archive path with an optional `#fragment`.

Modules, one per source file or concern:

| module | file | models |
|---|---|---|
| `Common` | common.dfy | `Optional`, `throws` outcomes, `CHMError`, the text decoders, `first(where:)` |
| `Strings` | strings.dfy | the Foundation string operations the code uses |
| `Paths` | paths.dfy | `NSString.lastPathComponent` and `pathExtension` |
| `Entries` | entry.dfy | `CHMEntry` |
| `ChmFile` | chm_file.dfy | `CHMFile` over an `Archive` value describing what CHMLib reports |
| `TableOfContents` | toc.dfy | `TOCParser`: the scanning loop as a method, proved equal to a tag-by-tag state machine |
| `TocProperties` | toc_properties.dfy | what each tag does to the forest, the attribute scanner, the end-of-input flatten, entity decoding |
| `TocExample` | toc_example.dfy | the contents file of the `parseSimpleHHC` test, tag by tag |
| `SearchText` | search_text.dfy | `tokenize`, `stripHTML`, `extractTitle`, `generateSnippet` |
| `SearchIndex` | search_index.dfy | the `CHMSearchIndex` class: `build` and `search` |
| `ViewModel` | view_model.dfy | the `CHMViewModel` class |
| `Sidebar` | sidebar.dfy | the `SidebarView` state and row flattening |
| `UrlScheme` | url_scheme.dfy | `CHMURLSchemeHandler` |
| `WebContent` | web_content.dfy | `WebViewStore` |

Methods follow the Swift code statement by statement: loops with their invariants, classes with their fields.
Each is proved against a specification function, and the lemmas state what the source promises about that function.

## Model

| member | source | states |
|---|---|---|
| `Common.FirstIndex` | Sources/CHMKit/CHMFile.swift:86 | `first(where:)` returns the least index whose element satisfies the predicate, or none when no element does |
| `Entries.HtmlEntries` | Sources/CHMKit/CHMSearchIndex.swift:31 | an entry is kept exactly when it is in the list and is a page |
| `Entries.HtmlEntriesOne` | Sources/CHMKit/CHMSearchIndex.swift:31 | a single entry is kept exactly when it is a page |
| `Entries.HtmlEntriesAppend` | Sources/CHMKit/CHMSearchIndex.swift:31 | the filter keeps listing order: the pages of a concatenation are the pages of the first part followed by those of the second |
| `Entries.IsHTMLIgnoresCase` | Sources/CHMKit/CHMEntry.swift:13-16 | page detection gives the same answer for a path and its lower-cased form |
| `Entries.IsHTMLExamples` | Tests/CHMKitTests/CHMKitTests.swift:66-75 | `/page.htm` and `/page.HTML` are pages, `/style.css` is not |
| `Entries.FilenameIsLastSegment` | Sources/CHMKit/CHMEntry.swift:19-21 | the file name of `dir/name` is `name` for every directory part |
| `Entries.FilenameExample` | Tests/CHMKitTests/CHMKitTests.swift:77-81 | the file name of `/docs/guide/intro.htm` is `intro.htm` |
| `Paths.Rooted` | Sources/CHMKit/CHMFile.swift:111 | the result starts with `/`; a rooted path is unchanged, any other gets exactly one `/` in front |
| `Paths.LastPathComponent` | Sources/CHMKit/CHMEntry.swift:20 | empty stays empty, all slashes gives `/`, otherwise a non-empty slash-free suffix of the path without its trailing slashes |
| `Paths.LastPathComponentOfChild` | Sources/CHMKit/CHMEntry.swift:19-21 | the last component of `dir/name` is `name` |
| `Paths.PathExtension` | Sources/CHMReader/CHMURLSchemeHandler.swift:72 | the extension has no dot and, when present, the last component ends with a dot followed by it |
| `Paths.PathExtensionOfName` | Sources/CHMReader/CHMURLSchemeHandler.swift:72 | the extension of `dir/base.ext` is `ext` |
| `Strings.Lower` | Sources/CHMKit/CHMEntry.swift:14 | lower-casing keeps the length and folds each character on its own |
| `Strings.Find` | Sources/CHMKit/CHMSearchIndex.swift:136 | the leftmost occurrence at or after the start, none for an empty pattern or when no occurrence exists |
| `Strings.ReplaceAll` | Sources/CHMKit/CHMTableOfContents.swift:140 | replace-all never lengthens the text when the replacement is no longer than the pattern, and leaves text without an occurrence unchanged |
| `Strings.TrimCut` | Sources/CHMKit/CHMSearchIndex.swift:119 | the trimmed text is a slice of the input, everything cut from either end is a trimmed character, and the result neither starts nor ends with one |
| `Strings.SortBy` | Sources/CHMKit/CHMSearchIndex.swift:79 | the sorted list is a permutation of the input, ascending by key under the case-insensitive order |
| `ChmFile.ResolveEntry` | Sources/CHMKit/CHMFile.swift:24-29 | an entry is found exactly when the path resolves, and it carries that path |
| `ChmFile.ExtractData` | Sources/CHMKit/CHMFile.swift:32-45 | either the entry's bytes, or `entryNotFound` when it does not resolve, or `extractionFailed` when retrieval reads nothing |
| `ChmFile.ExtractDataAtIsExtractData` | Sources/CHMKit/CHMFile.swift:48-53 | extracting by path equals extracting the entry of that path; an unresolved path is `entryNotFound` |
| `ChmFile.FindHHCPath` | Sources/CHMKit/CHMFile.swift:70-73 | the first normal file whose lower-cased path ends in `.hhc`; none exactly when no file does |
| `ChmFile.LE16` | Sources/CHMKit/CHMFile.swift:103-104 | a little-endian 16-bit field is below 65536 |
| `ChmFile.Records` | Sources/CHMKit/CHMFile.swift:102-116 | every complete record has a 16-bit code and a payload shorter than 65536 bytes |
| `ChmFile.RecordsFit` | Sources/CHMKit/CHMFile.swift:102-106 | the records with their 4-byte headers never take more bytes than follow the offset |
| `ChmFile.TopicPath` | Sources/CHMKit/CHMFile.swift:108-112 | a decoded topic is always an absolute path |
| `ChmFile.FirstTopic` | Sources/CHMKit/CHMFile.swift:107-113 | the default topic, when there is one, is an absolute path |
| `ChmFile.ParseSystemDefaultTopic` | Sources/CHMKit/CHMFile.swift:99-118 | the offset-walking loop returns the topic of the first code-2 record, after the version word, whose payload decodes; none for 4 bytes or fewer |
| `ChmFile.TopicRecordFromHeader` | Sources/CHMKit/CHMFile.swift:102-115 | from a header: nothing when the length overruns the data, its own record when it is a decodable code-2 record, else the first such record after it |
| `ChmFile.TopicIsFirstDecodable` | Sources/CHMKit/CHMFile.swift:107-114 | the record used is the first code-2 record whose payload decodes; a code-2 record that does not decode is skipped |
| `ChmFile.FindDefaultPage` | Sources/CHMKit/CHMFile.swift:76-87 | the `#SYSTEM` topic wins; else some conventional page resolves exactly when the result is one, and it is the first of the four that resolves |
| `TableOfContents.NextTag` | Sources/CHMKit/CHMTableOfContents.swift:48-55 | the scan ends exactly when no `<` is left; otherwise it moves forward, and a tag read is non-empty and holds no `>` |
| `TableOfContents.TagsShape` | Sources/CHMKit/CHMTableOfContents.swift:48-57 | every tag is non-empty without `>`, and text without `<` yields no tag |
| `TableOfContents.PopLevel` | Sources/CHMKit/CHMTableOfContents.swift:63-74 | with one level `/ul` changes nothing; otherwise exactly one level goes and the levels below the new top are untouched; what the new top becomes is stated by `TocProperties.CloseListStep` |
| `TableOfContents.RootedPath` | Sources/CHMKit/CHMTableOfContents.swift:81-83 | a node has a target exactly when it has a Local; the target is rooted, ends with the Local, is at most one longer, and equals a rooted Local |
| `TableOfContents.EndObject` | Sources/CHMKit/CHMTableOfContents.swift:79-87 | `/object` keeps the number of levels |
| `TableOfContents.ApplyParam` | Sources/CHMKit/CHMTableOfContents.swift:88-98 | a `param` never touches the stack; its effect on the pending Name and Local is stated by `TocProperties.ParamStep` |
| `TableOfContents.Parse` | Sources/CHMKit/CHMTableOfContents.swift:35-108 | the scanning loop returns the flatten of the state machine run over every tag of the input |
| `TableOfContents.FlattenStack` | Sources/CHMKit/CHMTableOfContents.swift:101-107 | the end-of-input loop computes the flatten of the stack |
| `TableOfContents.HandleTag` | Sources/CHMKit/CHMTableOfContents.swift:57-98 | the loop body's branches are the transition for the trimmed tag |
| `TableOfContents.CloseLevel` | Sources/CHMKit/CHMTableOfContents.swift:63-74 | the `/ul` branch is the pop-level step |
| `TableOfContents.ParseData` | Sources/CHMKit/CHMTableOfContents.swift:22-33 | UTF-8 text is parsed, else Windows-1252 text, else `tocParseFailed` |
| `TableOfContents.AttributeAt` | Sources/CHMKit/CHMTableOfContents.swift:114 | a match of the attribute pattern at the start of the text has a non-empty word key and a value without `"`, and ends within the text after its start; `TocProperties.AttributeAtPair` states that every `key="value"` pair is found |
| `TableOfContents.AttributeMatches` | Sources/CHMKit/CHMTableOfContents.swift:114-117 | the matches found left to right, resuming after each match: every one has a non-empty key and a value without `"` |
| `TableOfContents.ParseAttributes` | Sources/CHMKit/CHMTableOfContents.swift:112-124 | the loop fills the dictionary from the matches in order |
| `TableOfContents.ToMapKeys` | Sources/CHMKit/CHMTableOfContents.swift:118-122 | a key is present exactly when some match has it, ignoring case |
| `TableOfContents.ToMapLastWins` | Sources/CHMKit/CHMTableOfContents.swift:118-122 | a key's value is that of the last match with that key |
| `TableOfContents.DecodeHTMLEntities` | Sources/CHMKit/CHMTableOfContents.swift:128-143 | the loop applies one case-insensitive replace-all per entity, in table order |
| `TocProperties.NoTagsNoNodes` | Sources/CHMKit/CHMTableOfContents.swift:48-51 | markup without `<`, the empty input among it, gives no nodes |
| `TocProperties.FlattenIsConcat` | Sources/CHMKit/CHMTableOfContents.swift:101-105 | flattening the open levels is their concatenation, bottom first |
| `TocProperties.FlattenKeepsCount` | Sources/CHMKit/CHMTableOfContents.swift:101-107 | the end-of-input flatten keeps every node the levels hold |
| `TocProperties.PopLevelCount` | Sources/CHMKit/CHMTableOfContents.swift:63-74 | `/ul` keeps every node except the earlier children of the parent, which it overwrites |
| `TocProperties.SecondListReplacesFirst` | Sources/CHMKit/CHMTableOfContents.swift:67-70 | a second nested list under the same node replaces the first |
| `TocProperties.OpenListCount` | Sources/CHMKit/CHMTableOfContents.swift:60-62 | `ul` adds one empty level and keeps every node |
| `TocProperties.EndObjectCount` | Sources/CHMKit/CHMTableOfContents.swift:79-87 | `/object` adds one node exactly when an OBJECT is open and has a Name, always closes the OBJECT, and keeps Name and Local |
| `TocProperties.EndObjectNode` | Sources/CHMKit/CHMTableOfContents.swift:80-85 | the node emitted ends the top level, titled by the Name and targeting the rooted Local |
| `TocProperties.IgnoredTag` | Sources/CHMKit/CHMTableOfContents.swift:57-98 | an unknown tag, or a `param` outside an OBJECT, changes nothing |
| `TocProperties.OpenObjectResets` | Sources/CHMKit/CHMTableOfContents.swift:75-78 | `object` opens an OBJECT and forgets the pending Name and Local |
| `TocProperties.ClassifyIgnoresCase` | Sources/CHMKit/CHMTableOfContents.swift:58-60 | tags equal up to case have the same effect |
| `TocProperties.BareAmpersandsUnchanged` | Sources/CHMKit/CHMTableOfContents.swift:128-143 | a title whose every `&` cannot start an entity is returned unchanged |
| `TocProperties.NoAmpersandUnchanged` | Sources/CHMKit/CHMTableOfContents.swift:128-143 | a title without `&` is returned unchanged |
| `TocProperties.FirstPass` | Sources/CHMKit/CHMTableOfContents.swift:130-141 | decoding replaces `&amp;` first, then runs the remaining passes on the result |
| `TocProperties.DoubleEscapeDecodesTwice` | Sources/CHMKit/CHMTableOfContents.swift:139-141 | the passes chain: `&amp;lt;` decodes to `<`, not to `&lt;` |
| `TocProperties.EscapedAmpersandDecodes` | Sources/CHMKit/CHMTableOfContents.swift:128-143 | one `&amp;` followed by a space, amid text without `&`, decodes to `&` and nothing else changes |
| `TocProperties.AmpersandInTitle` | Tests/CHMKitTests/CHMKitTests.swift:41-54 | `C++ &amp; Templates` decodes to `C++ & Templates` |
| `TocProperties.DecodeShrinks` | Sources/CHMKit/CHMTableOfContents.swift:130-141 | decoding never lengthens a title |
| `TocProperties.AttributeAtPair` | Sources/CHMKit/CHMTableOfContents.swift:114 | for every word key and every value without `"`, `key="value"` followed by anything matches with that key and value and ends after the closing quote |
| `TocProperties.MatchesPairThen` | Sources/CHMKit/CHMTableOfContents.swift:114-117 | a pair is matched, then scanning resumes after it |
| `TocProperties.MatchesWordBlankThen` | Sources/CHMKit/CHMTableOfContents.swift:114-117 | a word followed by a blank is not a match: scanning goes on after the blank |
| `TocProperties.TwoPairMatches` | Sources/CHMKit/CHMTableOfContents.swift:114-117 | a tag name followed by two pairs yields exactly those two matches, in order |
| `TocProperties.ParamAttributes` | Sources/CHMKit/CHMTableOfContents.swift:112-124 | the attributes of `param name="…" value="…"`, in any letter case of the tag and keys, are exactly `name` and `value` with the written values |
| `TocProperties.ParamStep` | Sources/CHMKit/CHMTableOfContents.swift:88-98 | inside an OBJECT a param whose name is `name` in any case sets the Name to the decoded value, one named `local` sets the Local to the raw value, any other changes nothing; outside an OBJECT nothing changes |
| `TocProperties.ParamNameExample` | Sources/CHMKit/CHMTableOfContents.swift:93-94 | `param name="Name"` sets the Name to the decoded value |
| `TocProperties.ParamLocalExample` | Sources/CHMKit/CHMTableOfContents.swift:95-96 | `param name="Local"` sets the Local to the value as written |
| `TocProperties.ParamUpperCaseExample` | Sources/CHMKit/CHMTableOfContents.swift:88-96 | `PARAM NAME="local" VALUE="…"` sets the Local: tag and keys are matched ignoring case |
| `TocProperties.ParamOtherExample` | Sources/CHMKit/CHMTableOfContents.swift:93-97 | a param of another name, such as `ImageNumber`, changes nothing |
| `TocProperties.CloseListStep` | Sources/CHMKit/CHMTableOfContents.swift:63-74 | `/ul` with one level changes nothing; otherwise the top level is removed and becomes the children of the last node below, replacing them, or is appended to an empty level below |
| `TocExample.TagsSkipText` | Sources/CHMKit/CHMTableOfContents.swift:48-51 | text without `<` before a position yields the same tags as the text from that position |
| `TocExample.NextTagAtPiece` | Sources/CHMKit/CHMTableOfContents.swift:48-55 | at `<tag>` one round of the scanner reads exactly `tag` and stops after the `>` |
| `TocExample.TagsAtPiece` | Sources/CHMKit/CHMTableOfContents.swift:48-57 | at `<tag>` followed by text without `<`, the tags are `tag` followed by the tags after that text |
| `TocExample.RunAppend` | Sources/CHMKit/CHMTableOfContents.swift:48-99 | running two tag lists one after the other is running their concatenation |
| `TocExample.RunEntry` | Sources/CHMKit/CHMTableOfContents.swift:75-98 | an item with an OBJECT holding a Name and a Local param appends one node, titled by the decoded Name and targeting the rooted Local, to the top level, and closes the OBJECT |
| `TocExample.RunPlainEntry` | Sources/CHMKit/CHMTableOfContents.swift:75-98 | for a Name without `&` and an unrooted Local the node is titled by the Name and targets `/` followed by the Local |
| `TocExample.EntryOnTop` | Tests/CHMKitTests/CHMKitTests.swift:14-17 | one entry of the test document appends its node at the end of whatever list is open, and leaves its Name and Local pending |
| `TocExample.ExampleFirstEntries` | Tests/CHMKitTests/CHMKitTests.swift:14-21 | two entries on the outer list become its two nodes, in order |
| `TocExample.ExampleNested` | Tests/CHMKitTests/CHMKitTests.swift:22-26 | a nested list with one entry becomes a new top level holding that entry's node |
| `TocExample.ExampleClosing` | Tests/CHMKitTests/CHMKitTests.swift:27-30 | the two list ends fold the nested node into the last outer node's children and the outer list into the root; the document's end tags change nothing |
| `TocExample.ExampleRun` | Tests/CHMKitTests/CHMKitTests.swift:10-31 | the run over the test document's tags ends with one level holding the two outer nodes, the second with the nested node as its child |
| `TocExample.ExampleParse` | Tests/CHMKitTests/CHMKitTests.swift:32-38 | the forest has two nodes: the first titled by the first Name with path `/` followed by its Local, the second titled by the second Name with exactly one child, titled by the third Name |
| `SearchText.Components` | Sources/CHMKit/CHMSearchIndex.swift:86 | splitting gives at least one piece and every piece is alphanumeric |
| `SearchText.LongPieces` | Sources/CHMKit/CHMSearchIndex.swift:87 | every kept piece comes from the input and has at least two characters |
| `SearchText.Tokenize` | Sources/CHMKit/CHMSearchIndex.swift:84-88 | every token has at least two characters, is alphanumeric and is lower case |
| `SearchText.TokenizeSplit` | Sources/CHMKit/CHMSearchIndex.swift:84-88 | a separator splits the tokens: those of the text before it, then those after it |
| `SearchText.TokenizeWord` | Sources/CHMKit/CHMSearchIndex.swift:84-88 | an alphanumeric run is one lower-cased token when it has two characters or more, else none |
| `SearchText.TokenizeNoWords` | Sources/CHMKit/CHMSearchIndex.swift:84-88 | text without letters or digits has no token |
| `SearchText.MatchEnd` | Sources/CHMKit/CHMSearchIndex.swift:93-100 | a match of either pattern starts at a `<` and ends after it, within the text |
| `SearchText.ReplaceMatchesPlain` | Sources/CHMKit/CHMSearchIndex.swift:93-105 | text without `<` has no tag or block to remove and passes through unchanged |
| `SearchText.Collapse` | Sources/CHMKit/CHMSearchIndex.swift:114-118 | no two neighbouring whitespace characters remain, empty stays empty, and a leading whitespace run becomes one space |
| `SearchText.CollapseKeepsText` | Sources/CHMKit/CHMSearchIndex.swift:114-118 | collapsing keeps every non-whitespace character, in order |
| `SearchText.StripHTML` | Sources/CHMKit/CHMSearchIndex.swift:90-120 | the five rewriting stages, in order, give the stripped text |
| `SearchText.StripTextShape` | Sources/CHMKit/CHMSearchIndex.swift:113-119 | the stripped text neither starts nor ends with a blank and has no double whitespace |
| `SearchText.TrimKeepsNoDoubleSpace` | Sources/CHMKit/CHMSearchIndex.swift:119 | trimming collapsed text leaves no blank at either end and no double whitespace |
| `SearchText.StripPlainText` | Sources/CHMKit/CHMSearchIndex.swift:90-120 | text without `<` or `&` only has its whitespace collapsed and trimmed |
| `SearchText.TitleContent` | Sources/CHMKit/CHMSearchIndex.swift:123 | the lazy group never spans a line terminator |
| `SearchText.TitleAt` | Sources/CHMKit/CHMSearchIndex.swift:123 | a title captured at a position holds no line terminator |
| `SearchText.FirstTitle` | Sources/CHMKit/CHMSearchIndex.swift:125 | the first match's title holds no line terminator |
| `SearchText.ExtractTitle` | Sources/CHMKit/CHMSearchIndex.swift:122-129 | a title is non-empty, trimmed of whitespace and newlines at both ends, and on one line |
| `SearchText.NoTitleElement` | Sources/CHMKit/CHMSearchIndex.swift:124-126 | a page without `<title`, in any case, has no title |
| `SearchText.TitleOfSimplePage` | Sources/CHMKit/CHMSearchIndex.swift:122-129 | `<title>t</title>` followed by anything gives `t` trimmed, when `t` is one line without `<` |
| `SearchText.TitleAtSimplePage` | Sources/CHMKit/CHMSearchIndex.swift:123-126 | the pattern captures exactly the text between `<title>` and `</title>` |
| `SearchText.TitleContentRuns` | Sources/CHMKit/CHMSearchIndex.swift:123 | the lazy group runs to the first `</title>` |
| `SearchText.GenerateSnippet` | Sources/CHMKit/CHMSearchIndex.swift:131-132 | a page that was never indexed has an empty snippet |
| `SearchText.SnippetWithoutMatch` | Sources/CHMKit/CHMSearchIndex.swift:136-139 | without a match the snippet is the first 120 characters, or the whole shorter text, without ellipsis |
| `SearchText.SnippetAroundMatch` | Sources/CHMKit/CHMSearchIndex.swift:141-148 | with a match the snippet is a window of at most 120 characters from 40 before it, marked `...` where cut, and holding a query of up to 80 characters |
| `SearchText.SnippetMatchIsOccurrence` | Sources/CHMKit/CHMSearchIndex.swift:133-136 | the match found is a case-insensitive occurrence of the query |
| `SearchIndex.PostedMeans` | Sources/CHMKit/CHMSearchIndex.swift:44-47 | after posting, the keys are the old keys plus the words, and each word's set gains exactly the path |
| `SearchIndex.PostAll` | Sources/CHMKit/CHMSearchIndex.swift:44-47 | the posting loop inserts the path under each word in turn |
| `SearchIndex.IngestPostsEveryWord` | Sources/CHMKit/CHMSearchIndex.swift:41-47 | after one page the path is under every word of its text, no other key gains it, and no posting is lost |
| `SearchIndex.PageOf` | Sources/CHMKit/CHMSearchIndex.swift:34-39 | a page is ingested exactly when its entry extracts, under the entry's path |
| `SearchIndex.PageTitle` | Sources/CHMKit/CHMSearchIndex.swift:35-39 | a page's title is its title element, else its file name, and its text is the stripped decoded HTML |
| `SearchIndex.IngestAllKeepsPostings` | Sources/CHMKit/CHMSearchIndex.swift:33-48 | building never removes a posting |
| `SearchIndex.IngestAllIndexesEveryPage` | Sources/CHMKit/CHMSearchIndex.swift:33-48 | after building, every extracted page is posted under every word of its text |
| `SearchIndex.IngestAllRecordsPage` | Sources/CHMKit/CHMSearchIndex.swift:41-42 | after building, a page's title and text are recorded unless a later page with the same path replaced them |
| `SearchIndex.MatchAllMeans` | Sources/CHMKit/CHMSearchIndex.swift:57-70 | a path matches exactly when every query word prefixes some indexed word posted with that path |
| `SearchIndex.UnknownWordMatchesNothing` | Sources/CHMKit/CHMSearchIndex.swift:59-70 | one query word that prefixes no indexed word makes the whole query match nothing |
| `SearchIndex.MoreWordsNarrow` | Sources/CHMKit/CHMSearchIndex.swift:65-69 | adding query words can only narrow the matches |
| `SearchIndex.TitleFor` | Sources/CHMKit/CHMSearchIndex.swift:75 | the recorded title, else the path's last component |
| `SearchIndex.ResultFor` | Sources/CHMKit/CHMSearchIndex.swift:75-77 | a result carries its path, its title or last path component, and an empty snippet for an unindexed page |
| `SearchIndex.ResultsFor` | Sources/CHMKit/CHMSearchIndex.swift:74-78 | one result per matching path, each path once |
| `SearchIndex.RankedResults` | Sources/CHMKit/CHMSearchIndex.swift:74-79 | the results cover exactly the paths, once each, and are sorted by title ignoring case |
| `SearchIndex.SearchIndex.constructor` | Sources/CHMKit/CHMSearchIndex.swift:15-23 | a new index is empty and not built |
| `SearchIndex.SearchIndex.Ingest` | Sources/CHMKit/CHMSearchIndex.swift:41-47 | one page's step records title and text and posts the path under every word |
| `SearchIndex.SearchIndex.Build` | Sources/CHMKit/CHMSearchIndex.swift:26-50 | the index is every extracted HTML file ingested in order, and it is marked built |
| `SearchIndex.SearchIndex.PrefixMatchesOf` | Sources/CHMKit/CHMSearchIndex.swift:60-64 | the union of the postings of every indexed word the query word prefixes |
| `SearchIndex.SearchIndex.MatchingPaths` | Sources/CHMKit/CHMSearchIndex.swift:57-72 | the loop intersects the prefix matches of all query words |
| `SearchIndex.SearchIndex.Search` | Sources/CHMKit/CHMSearchIndex.swift:53-80 | no words, no results; otherwise exactly the matching pages, each once, with title and snippet, sorted by title |
| `ViewModel.FirstLeafIsFirstInPreorder` | Sources/CHMReader/CHMViewModel.swift:55-61 | the first leaf path is the first path in pre-order, and nil exactly when no node has one |
| `ViewModel.FlatNodes` | Sources/CHMReader/CHMViewModel.swift:52 | one node per entry, in order |
| `ViewModel.FlatNodeInjective` | Sources/CHMReader/CHMViewModel.swift:52 | two entries give the same node exactly when they are the same entry |
| `ViewModel.FlatNodesCount` | Sources/CHMReader/CHMViewModel.swift:52 | each entry's node occurs among the nodes exactly as often as the entry among the entries |
| `ViewModel.BuildFlatTOC` | Sources/CHMReader/CHMViewModel.swift:47-53 | one childless node per HTML entry, titled by its file name: each page's node occurs exactly as often as the page in the listing; sorted by path ignoring case |
| `ViewModel.ParsedOrFlatTOC` | Sources/CHMReader/CHMViewModel.swift:34-39 | the parsed `.hhc`, or the flat list when it cannot be extracted or decoded |
| `ViewModel.DefaultSelectionIsAPage` | Sources/CHMReader/CHMViewModel.swift:42-44 | the selection is the `#SYSTEM` topic, else an existing conventional page, else the first table-of-contents path; nil only when none exists |
| `ViewModel.FallbackListsEveryPage` | Sources/CHMReader/CHMViewModel.swift:29-39 | without a readable `.hhc`, every HTML page is listed, as often as it occurs in the listing (once for a listing without repeats) |
| `ViewModel.RelativePath` | Sources/CHMReader/CHMViewModel.swift:110 | one leading `/` is dropped, any other path is kept |
| `ViewModel.ExportWritesEntries` | Sources/CHMReader/CHMViewModel.swift:106-116 | every write has a non-empty relative path and the bytes of the entry with that path |
| `ViewModel.ExportCoversEntries` | Sources/CHMReader/CHMViewModel.swift:106-116 | every entry that extracts and has a non-empty relative path is written |
| `ViewModel.ExportAll` | Sources/CHMReader/CHMViewModel.swift:106-116 | the loop over all entries writes the export plan |
| `ViewModel.ViewModel.constructor` | Sources/CHMReader/CHMViewModel.swift:18-22 | a new model shows the loaded table of contents, selects the default page when an `.hhc` exists, and has no search and no results |
| `ViewModel.ViewModel.LoadTOC` | Sources/CHMReader/CHMViewModel.swift:28-45 | the loaded table of contents; when an `.hhc` exists and nothing is selected, the default selection; nothing else changes |
| `ViewModel.ViewModel.PerformSearch` | Sources/CHMReader/CHMViewModel.swift:119-127 | a blank query clears results and the search flag; otherwise a new task for the trimmed query replaces the pending one |
| `ViewModel.ViewModel.RunSearchTask` | Sources/CHMReader/CHMViewModel.swift:128-137 | a cancelled task only clears the flag; a live one publishes the index's matches for its query, sorted by title |
| `Sidebar.RowsShape` | Sources/CHMReader/SidebarView.swift:41-48 | every row is at the given depth or deeper, and its identity extends its parent's by one index per level |
| `Sidebar.TopLevelInOrder` | Sources/CHMReader/SidebarView.swift:41-49 | the rows at the top depth are exactly the given nodes, in order |
| `Sidebar.CollapsedShowsTopLevel` | Sources/CHMReader/SidebarView.swift:39-51 | with nothing expanded, the rows are exactly the top-level nodes |
| `Sidebar.VisibleOnlyUnderExpanded` | Sources/CHMReader/SidebarView.swift:44-46 | a row is visible only when every node above it is expanded |
| `Sidebar.EveryNodeHasRow` | Sources/CHMReader/SidebarView.swift:42-43 | every node at the walked level has its row |
| `Sidebar.ExpandedShowsChildren` | Sources/CHMReader/SidebarView.swift:44-46 | every child of a visible, expanded node has a row one level deeper |
| `Sidebar.Toggled` | Sources/CHMReader/SidebarView.swift:53-59 | the toggled node changes membership and every other keeps it |
| `Sidebar.ToggleTwice` | Sources/CHMReader/SidebarView.swift:53-59 | toggling twice restores the expanded set |
| `Sidebar.SelectedAfter` | Sources/CHMReader/SidebarView.swift:22-26 | selecting a node without a path changes nothing |
| `Sidebar.SelectMarksSamePath` | Sources/CHMReader/SidebarView.swift:20-26 | after selecting a node with a path, the rows marked are exactly those with that path |
| `Sidebar.Walk` | Sources/CHMReader/SidebarView.swift:41-48 | the recursive walk appends the rows of the level |
| `Sidebar.SidebarView.constructor` | Sources/CHMReader/SidebarView.swift:7-10 | a new sidebar has nothing expanded |
| `Sidebar.SidebarView.VisibleRows` | Sources/CHMReader/SidebarView.swift:39-51 | the visible rows are the walk of the forest under the expanded set |
| `Sidebar.SidebarView.ToggleExpansion` | Sources/CHMReader/SidebarView.swift:53-59 | the expanded set is toggled at the node and the selection is kept |
| `Sidebar.SidebarView.Select` | Sources/CHMReader/SidebarView.swift:22-26 | the node's path becomes the selection when it has one; expansion is kept |
| `Sidebar.SidebarView.Tap` | Sources/CHMReader/SidebarView.swift:97-102 | a node with children toggles, then the node is selected |
| `UrlScheme.TextTypes` | Sources/CHMReader/CHMURLSchemeHandler.swift:71-87 | a type is textual exactly for the `htm`, `html`, `css` and `txt` extensions |
| `UrlScheme.MimeTypeOfName` | Sources/CHMReader/CHMURLSchemeHandler.swift:71-72 | the type of `dir/base.ext` is the table entry for the lower-cased `ext` |
| `UrlScheme.ContentPathAsWritten` | Sources/CHMReader/CHMURLSchemeHandler.swift:22-26 | the request path is never empty |
| `UrlScheme.ContentsPageMisrouted` | Sources/CHMReader/CHMURLSchemeHandler.swift:22-24 | as written, `/contents.htm` becomes `s.htm` |
| `UrlScheme.ContentPath` | Sources/CHMReader/CHMURLSchemeHandler.swift:22-26 | the request path is never empty |
| `UrlScheme.ContentPathKeepsArchivePaths` | Sources/CHMReader/CHMURLSchemeHandler.swift:22-26 | an archive path not under `/content/` is served as itself, and `/content` followed by an archive path gives that path |
| `UrlScheme.ContentPathAgrees` | Sources/CHMReader/CHMURLSchemeHandler.swift:22-26 | both rules agree on every path that does not start with `/content` followed by something other than `/` |
| `UrlScheme.StripBOM` | Sources/CHMReader/CHMURLSchemeHandler.swift:38-42 | a leading byte-order mark is removed and nothing else is |
| `UrlScheme.Serve` | Sources/CHMReader/CHMURLSchemeHandler.swift:14-63 | no URL gives `invalidData`; extraction errors pass through; text loses its mark and is labelled `utf-8` or `windows-1252`; the length is the body's; the request path follows the corrected `/content` rule (see Findings) |
| `UrlScheme.BodyIsDataLessMark` | Sources/CHMReader/CHMURLSchemeHandler.swift:37-42 | only text with a mark loses bytes, exactly its three |
| `WebContent.SplitFragment` | Sources/CHMReader/WebContentView.swift:29-34 | the split is at the first `#`: no fragment exactly when there is no `#`, and the parts rejoin to the path |
| `WebContent.ComponentsUrl` | Sources/CHMReader/WebContentView.swift:35 | no URL exactly when there is a host and the path is neither empty nor rooted |
| `WebContent.UrlOf` | Sources/CHMReader/WebContentView.swift:25-35 | a URL is formed unless the path starts with a character other than `/` or `#`; it has our scheme and host and gives back the path |
| `WebContent.UrlOfInjective` | Sources/CHMReader/WebContentView.swift:25-35 | distinct paths give distinct URLs |
| `WebContent.Navigation` | Sources/CHMReader/WebContentView.swift:35-38 | a load happens exactly when the URL forms and differs from the current one, and loads that URL |
| `WebContent.NavigateTwiceLoadsOnce` | Sources/CHMReader/WebContentView.swift:36-38 | navigating twice to the same path loads at most once |
| `WebContent.OtherPathLoads` | Sources/CHMReader/WebContentView.swift:36-38 | from a shown page, navigating to any other valid path loads it |
| `WebContent.ServedAsNavigated` | Sources/CHMReader/WebContentView.swift:25-35 | a rooted path without `#` outside `/content/` reaches the scheme handler as itself |
| `WebContent.WebView.constructor` | Sources/CHMReader/WebContentView.swift:18 | a new web view shows nothing and has loaded nothing |
| `WebContent.WebView.Load` | Sources/CHMReader/WebContentView.swift:37 | the request is recorded and the view shows its URL |
| `WebContent.WebViewStore.constructor` | Sources/CHMReader/WebContentView.swift:7-9 | a new holder has no web view and no scheme handler |
| `WebContent.WebViewStore.Setup` | Sources/CHMReader/WebContentView.swift:11-21 | only the first call creates a web view, wired to the archive, with swipe navigation on; later calls change nothing |
| `WebContent.WebViewStore.Navigate` | Sources/CHMReader/WebContentView.swift:23-39 | the view shows the navigated URL, one load is recorded exactly when it differs, and nothing happens without a web view |

## Left out

- CHMLib (`chm_open`, `chm_resolve_object`, `chm_retrieve_object`, `chm_enumerate`, `chm_close`) is foreign code. An opened archive is the value `ChmFile.Archive`, which lists what those calls report; failing to open (`openFailed`) and the entries' offset, length and storage space are not modelled.
- Text decoding with `String(data:encoding:)` is a pair of function parameters (`Common.TextCodec`). Only whether each decoder succeeds, and the order they are tried, is modelled.
- `removingPercentEncoding` is a parameter (`unescape`). `URLComponents` percent-encoding of the path is not modelled: a URL is its components.
- The regular expressions are written as direct scanners, one per pattern. Matching on UTF-16 units is not modelled; the text is a sequence of characters.
- `Strings.Lower`: folds ASCII letters only, not Unicode case mapping (which can change a string's length).
- `Strings.IsWordChar`: the `\w` of the attribute pattern is ASCII letters, digits and `_`, not Unicode word characters, so a key such as `éname` is matched from its ASCII tail.
- `SearchText.Tokenize`: the alphanumeric character set is ASCII letters and digits, not Unicode's.
- `Strings.SortBy`: `localizedCaseInsensitiveCompare` is modelled as lexicographic order of the ASCII-lowercased strings. The order of results with equal keys is left open, as Swift's sort is not stable.
- `SearchIndex.ResultsFor`: a Swift `Set` has no defined order, so the paths are enumerated in an order the model does not fix.
- Random `UUID` identities: the sidebar identifies a node by its position path (`Sidebar.NodeId`); the ids of `TOCNode` and `SearchResult` are not modelled.
- Concurrency is not modelled: the actor isolation of the index, the `Task` that builds it, the `isIndexBuilt` flag and the 200 ms debounce. A scheduled search is a `SearchTask` value, cancellation replaces it, and `RunSearchTask` is its body once the sleep has elapsed.
- `exportCurrentPage` and the panels of `exportAll` are user interface. Directory creation and file writes are disk I/O. `ExportAll` returns the list of writes instead.
- WebKit is not modelled beyond the current URL and the list of loads: request loading, `setURLSchemeHandler`, the scheme handler's `stop` (it does nothing), and `WebContentView`'s `makeNSView`/`updateNSView` view embedding.
- SwiftUI rendering of rows (chevrons, icons, padding) is not modelled; `SidebarView` keeps the rows, the expanded set and the selection.
- `TocExample.ExampleParse`: states the `parseSimpleHHC` expectations for the test document's tag sequence, with its Names and Locals as parameters (any Name without `"` or `&`, any unrooted Local without `"`). That the scanner reads exactly those tags from the whole text is not proved; `TocExample.TagsAtPiece` proves it one tag at a time.
- `ViewModel.ViewModel.RunSearchTask`: states the published results' paths and title order. It does not restate each result's title and snippet; `SearchIndex.SearchIndex.Search` states those.

## Findings

| source | as written | input that shows it | evidently intended | confidence | as-written member | corrected member |
|---|---|---|---|---|---|---|
| Sources/CHMReader/CHMURLSchemeHandler.swift:23-24 | drops the first eight characters of any URL path that starts with `/content`, whole segment or not | navigating to `/contents.htm` (URL path `/contents.htm`, host `content`) requests `s.htm` | drop only a whole leading `/content` segment | not executed | `UrlScheme.ContentsPageMisrouted` | `UrlScheme.ContentPathKeepsArchivePaths` |

The web view puts `content` in the URL's host, not its path, so an archive page whose name starts with "content" is stripped by mistake.
`UrlScheme.ContentPathAsWritten` is the rule as written. `UrlScheme.ContentPath` is the corrected rule, and `UrlScheme.Serve` uses it.
Even the corrected rule still strips a real archive folder named `content`, because that is what the source's comment says the strip is for.
