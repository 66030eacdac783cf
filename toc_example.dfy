// The contents-file example of the library's test suite (`parseSimpleHHC`),
// carried through the tag scanner and the state machine.

module TocExample {

  import opened Common
  import opened Strings
  import opened TableOfContents
  import opened TocProperties

  // ---------------------------------------------------------------------
  // The tag scanner at one tag
  // ---------------------------------------------------------------------

  /** The first occurrence of `c` is the same from `i` and from `j` when none lies between. */
  lemma IndexOfSkips(s: string, i: nat, j: nat, c: char)
    requires i <= j <= |s|
    requires forall k :: i <= k < j ==> s[k] != c
    ensures IndexOf(s, i, c) == IndexOf(s, j, c)
  {
  }

  /** Text without a `<` before position `j` holds no tag. */
  lemma TagsSkipText(s: string, i: nat, j: nat)
    requires i <= j <= |s|
    requires forall k :: i <= k < j ==> s[k] != '<'
    ensures TagsFrom(s, i) == TagsFrom(s, j)
  {
    if i < j {
      if j == |s| {
        assert '<' !in s[i..];
        TagsShape(s, i);
      } else {
        IndexOfSkips(s, i, j, '<');
        assert NextTag(s, i) == NextTag(s, j);
      }
    }
  }

  /** `IndexOf` stops at the first occurrence. */
  lemma IndexOfAt(s: string, i: nat, j: nat, c: char)
    requires i <= j < |s| && s[j] == c
    requires forall k :: i <= k < j ==> s[k] != c
    ensures IndexOf(s, i, c) == j
  {
  }

  /** The text `<tag>` followed by `gap`. */
  function Piece(tag: string, gap: string): string {
    "<" + tag + ">" + gap
  }

  /** Where the parts of a piece lie in a text holding it at `i`. */
  lemma PieceLayout(s: string, i: nat, tag: string, gap: string)
    requires i + |Piece(tag, gap)| <= |s| && s[i..i + |Piece(tag, gap)|] == Piece(tag, gap)
    ensures s[i] == '<' && s[i + 1 + |tag|] == '>'
    ensures s[i + 1..i + 1 + |tag|] == tag
    ensures forall k :: i + 1 <= k < i + 1 + |tag| ==> s[k] == tag[k - i - 1]
    ensures forall k :: i + 2 + |tag| <= k < i + |Piece(tag, gap)| ==> s[k] == gap[k - i - 2 - |tag|]
  {
    var p := Piece(tag, gap);
    assert forall k :: i <= k < i + |p| ==> s[k] == p[k - i];
    assert s[i + 1..i + 1 + |tag|] == p[1..1 + |tag|];
    assert p[1..1 + |tag|] == tag;
  }

  /** At a piece, one round of the scanner reads its tag and stops after the `>`. */
  lemma NextTagAtPiece(s: string, i: nat, tag: string, gap: string)
    requires tag != [] && '>' !in tag
    requires i + |Piece(tag, gap)| <= |s| && s[i..i + |Piece(tag, gap)|] == Piece(tag, gap)
    ensures NextTag(s, i) == Tag(tag, i + 2 + |tag|)
  {
    var close := i + 1 + |tag|;
    PieceLayout(s, i, tag, gap);
    forall k | i + 1 <= k < close ensures s[k] != '>' {
      assert tag[k - i - 1] in tag;
    }
    IndexOfAt(s, i, i, '<');
    IndexOfAt(s, i + 1, close, '>');
  }

  /** The scanner's list after a round that finds a tag. */
  lemma TagsAtTag(s: string, i: nat, raw: string, next: nat)
    requires i < |s| && NextTag(s, i) == Tag(raw, next)
    ensures TagsFrom(s, i) == [raw] + TagsFrom(s, next)
  {
  }

  /** Text without `<` between `i` and `j` holds no tag. */
  lemma TagsSkipGap(s: string, i: nat, j: nat, gap: string)
    requires i <= j <= |s| && s[i..j] == gap && '<' !in gap
    ensures TagsFrom(s, i) == TagsFrom(s, j)
  {
    forall k | i <= k < j ensures s[k] != '<' {
      assert s[k] == gap[k - i] && gap[k - i] in gap;
    }
    TagsSkipText(s, i, j);
  }

  /** At a piece, the scanner reads its tag, then goes on after its text. */
  lemma TagsAtPiece(s: string, i: nat, j: nat, tag: string, gap: string)
    requires tag != [] && '>' !in tag && '<' !in gap
    requires i <= j <= |s| && s[i..j] == Piece(tag, gap)
    ensures TagsFrom(s, i) == [tag] + TagsFrom(s, j)
  {
    var next := i + 2 + |tag|;
    assert j == next + |gap|;
    NextTagAtPiece(s, i, tag, gap);
    TagsAtTag(s, i, tag, next);
    assert s[next..j] == s[i..j][2 + |tag|..];
    assert Piece(tag, gap)[2 + |tag|..] == gap;
    TagsSkipGap(s, next, j, gap);
  }

  // ---------------------------------------------------------------------
  // The state machine over the example's tags
  // ---------------------------------------------------------------------

  /** Running two lists of tags one after the other is running their concatenation. */
  lemma {:induction false} RunAppend(st: ParserState, a: seq<string>, b: seq<string>)
    requires |st.stack| >= 1
    ensures Run(st, a + b) == Run(Run(st, a), b)
    decreases |a|
  {
    if a == [] {
      assert a + b == b;
    } else {
      assert a + b == [a[0]] + (a[1..] + b);
      assert a == [a[0]] + a[1..];
      RunCons(st, a[0], a[1..] + b);
      RunCons(st, a[0], a[1..]);
      RunAppend(Transition(st, Trim(a[0], IsBlank)), a[1..], b);
    }
  }

  /** A tag that neither starts nor ends with a blank is left as it is by the trimming. */
  lemma TrimKeeps(t: string)
    requires t != [] && !IsBlank(t[0]) && !IsBlank(t[|t| - 1])
    ensures Trim(t, IsBlank) == t
  {
    assert SkipWhile(t, 0, IsBlank) == 0;
    assert SkipBackWhile(t, 0, |t|, IsBlank) == |t|;
  }

  /** The first tag, then the rest: the first tag's transition, then the rest. */
  lemma RunHead(st: ParserState, tags: seq<string>)
    requires |st.stack| >= 1 && tags != []
    requires tags[0] != [] && !IsBlank(tags[0][0]) && !IsBlank(tags[0][|tags[0]| - 1])
    ensures Run(st, tags) == Run(Transition(st, tags[0]), tags[1..])
  {
    TrimKeeps(tags[0]);
  }

  /** A lower-cased tag that starts none of the five kinds' prefixes is another tag. */
  lemma ClassifyOther(low: string)
    requires |low| >= 2 && low[0] != 'u' && low[0] != 'o' && low[0] != 'p'
    requires low[0] == '/' ==> low[1] != 'u' && low[1] != 'o'
    ensures Classify(low) == OtherTag
  {
    assert !HasPrefix(low, "ul") by { assert low[..2][0] == low[0]; }
    assert !HasPrefix(low, "/ul") by { if |low| >= 3 { assert low[..3][1] == low[1]; } }
    assert !HasPrefix(low, "object") by { if |low| >= 6 { assert low[..6][0] == low[0]; } }
    assert !HasPrefix(low, "/object") by { if |low| >= 7 { assert low[..7][1] == low[1]; } }
    assert !HasPrefix(low, "param") by { if |low| >= 5 { assert low[..5][0] == low[0]; } }
  }

  /** The letter cases of the example's plain tags. */
  lemma LowerTags()
    ensures Lower("HTML") == "html" && Lower("/HTML") == "/html"
    ensures Lower("BODY") == "body" && Lower("/BODY") == "/body"
    ensures Lower("LI") == "li" && Lower("UL") == "ul" && Lower("/UL") == "/ul"
    ensures Lower("/OBJECT") == "/object"
  {
  }

  /** The document's own tags are none of the parser's. */
  lemma DocumentTagKinds()
    ensures Classify(Lower("HTML")) == OtherTag && Classify(Lower("/HTML")) == OtherTag
    ensures Classify(Lower("BODY")) == OtherTag && Classify(Lower("/BODY")) == OtherTag
  {
    LowerTags();
    ClassifyOther("html");
    ClassifyOther("/html");
    ClassifyOther("body");
    ClassifyOther("/body");
  }

  /** `UL` opens a list and `/UL` closes one. */
  lemma ListTagKinds()
    ensures Classify(Lower("UL")) == OpenList && Classify(Lower("/UL")) == CloseList
  {
    LowerTags();
    assert "/ul"[..2][0] != "ul"[0];
  }

  /** The item tag is none of the parser's; `/OBJECT` closes an OBJECT. */
  lemma EntryTagKinds()
    ensures Classify(Lower("LI")) == OtherTag && Classify(Lower("/OBJECT")) == CloseObject
  {
    LowerTags();
    ClassifyOther("li");
    assert "/object"[..2][0] != "ul"[0] && "/object"[..3][1] != "/ul"[1];
    assert "/object"[..6][0] != "object"[0];
  }

  /** The OBJECT tag of the example opens an OBJECT. */
  lemma ObjectTagKind()
    ensures Classify(Lower(ObjectTag)) == OpenObject
  {
    var low := Lower(ObjectTag);
    assert ObjectTag[..6] == "OBJECT";
    LowerSlice(ObjectTag, 0, 6);
    assert Lower("OBJECT") == "object";
    ClassifyObject(low);
  }

  /** Any lower-cased tag text starting with `object` opens an object. */
  lemma ClassifyObject(low: string)
    requires |low| >= 6 && low[..6] == "object"
    ensures Classify(low) == OpenObject
  {
    assert !HasPrefix(low, "ul") by { assert low[..2][0] == low[..6][0]; }
    assert !HasPrefix(low, "/ul") by { assert low[..3][0] == low[..6][0]; }
  }

  const ObjectTag := "OBJECT type=\"text/sitemap\""

  function NameTag(name: string): string {
    "param name=\"Name\" value=\"" + name + "\""
  }

  function LocalTag(local: string): string {
    "param name=\"Local\" value=\"" + local + "\""
  }

  /** The tags of one entry of the example: an item holding an OBJECT with a Name and a Local. */
  function EntryTags(name: string, local: string): seq<string> {
    ["LI", ObjectTag, NameTag(name), LocalTag(local), "/OBJECT"]
  }

  /** The first two tags, then the rest. */
  lemma RunTwo(st: ParserState, tags: seq<string>)
    requires |st.stack| >= 1 && |tags| >= 2
    requires tags[0] != [] && !IsBlank(tags[0][0]) && !IsBlank(tags[0][|tags[0]| - 1])
    requires tags[1] != [] && !IsBlank(tags[1][0]) && !IsBlank(tags[1][|tags[1]| - 1])
    ensures Run(st, tags) == Run(Transition(Transition(st, tags[0]), tags[1]), tags[2..])
  {
    RunHead(st, tags);
    RunHead(Transition(st, tags[0]), tags[1..]);
    assert tags[1..][1..] == tags[2..];
  }

  /** The item tag changes nothing; the OBJECT tag opens an OBJECT with nothing pending. */
  lemma OpenSteps(st: ParserState)
    requires |st.stack| >= 1
    ensures Transition(Transition(st, "LI"), ObjectTag) == ParserState(st.stack, None, None, true)
  {
    EntryTagKinds();
    ObjectTagKind();
  }

  /** The item and the OBJECT tag of an entry. */
  lemma EntryOpen(st: ParserState, name: string, local: string)
    requires |st.stack| >= 1
    ensures Run(st, EntryTags(name, local)) ==
            Run(ParserState(st.stack, None, None, true), [NameTag(name), LocalTag(local), "/OBJECT"])
  {
    var tags := EntryTags(name, local);
    assert |ObjectTag| == 26 && ObjectTag[0] == 'O' && ObjectTag[25] == '"';
    assert tags[2..] == [NameTag(name), LocalTag(local), "/OBJECT"];
    RunTwo(st, tags);
    OpenSteps(st);
  }

  /** The Name and Local parameters of an entry, run one after the other. */
  lemma EntryParams(st: ParserState, name: string, local: string)
    requires |st.stack| >= 1
    ensures Run(st, [NameTag(name), LocalTag(local), "/OBJECT"]) ==
            Run(Transition(Transition(st, NameTag(name)), LocalTag(local)), ["/OBJECT"])
  {
    var tags := [NameTag(name), LocalTag(local), "/OBJECT"];
    assert NameTag(name)[0] == 'p' && LocalTag(local)[0] == 'p';
    RunHead(st, tags);
    assert tags[1..][1..] == ["/OBJECT"];
    RunHead(Transition(st, NameTag(name)), tags[1..]);
  }

  /** The closing OBJECT tag of an entry. */
  lemma EntryClose(st: ParserState)
    requires |st.stack| >= 1
    ensures Run(st, ["/OBJECT"]) == EndObject(st)
  {
    EntryTagKinds();
    RunHead(st, ["/OBJECT"]);
    assert ["/OBJECT"][1..] == [];
  }

  /**
   * One entry appends one node to the top level, titled by the decoded Name
   * and targeting the rooted Local; the Name and Local stay pending and the
   * OBJECT is closed.
   */
  lemma RunEntry(st: ParserState, name: string, local: string)
    requires |st.stack| >= 1 && '"' !in name && '"' !in local
    ensures Run(st, EntryTags(name, local)) ==
            ParserState(AppendToTop(st.stack, TOCNode(DecodeEntities(name), RootedPath(Some(local)), [])),
                        Some(DecodeEntities(name)), Some(local), false)
  {
    var s2 := ParserState(st.stack, None, None, true);
    var s4 := Transition(Transition(s2, NameTag(name)), LocalTag(local));
    EntryOpen(st, name, local);
    EntryParams(s2, name, local);
    ParamNameExample(s2, name);
    ParamLocalExample(Transition(s2, NameTag(name)), local);
    assert s4 == ParserState(st.stack, Some(DecodeEntities(name)), Some(local), true);
    EntryClose(s4);
  }

  /** An entry whose Name holds no `&` and whose Local is relative: the node keeps the Name and roots the Local. */
  lemma RunPlainEntry(st: ParserState, name: string, local: string)
    requires |st.stack| >= 1 && '"' !in name && '&' !in name && '"' !in local
    requires local != [] && local[0] != '/'
    ensures Run(st, EntryTags(name, local)) ==
            ParserState(AppendToTop(st.stack, TOCNode(name, Some("/" + local), [])), Some(name), Some(local), false)
  {
    RunEntry(st, name, local);
    NoAmpersandUnchanged(name);
    assert !HasPrefix(local, "/") by { assert local[..1][0] == local[0]; }
  }

  // ---------------------------------------------------------------------
  // The whole example
  // ---------------------------------------------------------------------

  /** A Name without entities or quotes and a relative Local without quotes, as in the test document. */
  predicate PlainEntry(name: string, local: string) {
    '"' !in name && '&' !in name && '"' !in local && local != [] && local[0] != '/'
  }

  /** The node a plain entry becomes. */
  function EntryNode(name: string, local: string): TOCNode {
    TOCNode(name, Some("/" + local), [])
  }

  /**
   * The tags of the test document, in order, with its three Names and Locals
   * as parameters: two outer tags, a list with two entries, a nested list with
   * one entry, and the closing tags.
   */
  function ExampleTags(n1: string, l1: string, n2: string, l2: string, n3: string, l3: string): seq<string> {
    ["HTML", "BODY", "UL"] + (EntryTags(n1, l1) + EntryTags(n2, l2)) +
      ((["UL"] + EntryTags(n3, l3)) + ["/UL", "/UL", "/BODY", "/HTML"])
  }

  /** The outer tags and the first list: two levels, nothing pending. */
  lemma ExampleOpening()
    ensures Run(Initial, ["HTML", "BODY", "UL"]) == ParserState([[], []], None, None, false)
  {
    var tags := ["HTML", "BODY", "UL"];
    DocumentTagKinds();
    ListTagKinds();
    RunTwo(Initial, tags);
    assert tags[2..] == ["UL"];
    RunHead(Initial, ["UL"]);
    assert ["UL"][1..] == [];
  }

  /** Appending to the top level of `levels + [top]`. */
  lemma AppendOnTop(levels: seq<seq<TOCNode>>, top: seq<TOCNode>, node: TOCNode)
    ensures AppendToTop(levels + [top], node) == levels + [top + [node]]
  {
    var r := AppendToTop(levels + [top], node);
    assert r[..|r| - 1] == levels;
    assert r == r[..|r| - 1] + [r[|r| - 1]];
  }

  /** One entry on a list whose nodes are `top`, above the levels `below`. */
  lemma EntryOnTop(st: ParserState, below: seq<seq<TOCNode>>, top: seq<TOCNode>, name: string, local: string)
    requires st.stack == below + [top] && PlainEntry(name, local)
    ensures Run(st, EntryTags(name, local)) ==
            ParserState(below + [top + [EntryNode(name, local)]], Some(name), Some(local), false)
  {
    AppendOnTop(below, top, EntryNode(name, local));
    RunPlainEntry(st, name, local);
  }

  /** The first two entries land on the outer list, in order. */
  lemma ExampleFirstEntries(st: ParserState, n1: string, l1: string, n2: string, l2: string)
    requires st.stack == [[], []] && PlainEntry(n1, l1) && PlainEntry(n2, l2)
    ensures Run(st, EntryTags(n1, l1) + EntryTags(n2, l2)) ==
            ParserState([[], [EntryNode(n1, l1), EntryNode(n2, l2)]], Some(n2), Some(l2), false)
  {
    var first := [EntryNode(n1, l1)];
    assert st.stack == [[]] + [[]];
    assert [] + first == first;
    EntryOnTop(st, [[]], [], n1, l1);
    var mid := ParserState([[]] + [first], Some(n1), Some(l1), false);
    EntryOnTop(mid, [[]], first, n2, l2);
    var both := [EntryNode(n1, l1), EntryNode(n2, l2)];
    assert first + [EntryNode(n2, l2)] == both;
    assert [[]] + [both] == [[], both];
    RunAppend(st, EntryTags(n1, l1), EntryTags(n2, l2));
  }

  /** The nested list and its entry: a third level holding one node. */
  lemma ExampleNested(st: ParserState, n3: string, l3: string)
    requires |st.stack| >= 1 && !st.inObject && PlainEntry(n3, l3)
    ensures Run(st, ["UL"] + EntryTags(n3, l3)) ==
            ParserState(st.stack + [[EntryNode(n3, l3)]], Some(n3), Some(l3), false)
  {
    var deeper := st.(stack := st.stack + [[]]);
    AppendOnTop(st.stack, [], EntryNode(n3, l3));
    assert [] + [EntryNode(n3, l3)] == [EntryNode(n3, l3)];
    OpenListStep(st);
    RunHead(st, ["UL"] + EntryTags(n3, l3));
    assert (["UL"] + EntryTags(n3, l3))[1..] == EntryTags(n3, l3);
    RunPlainEntry(deeper, n3, l3);
  }

  /** `UL` opens a level. */
  lemma OpenListStep(st: ParserState)
    requires |st.stack| >= 1
    ensures Transition(st, "UL") == st.(stack := st.stack + [[]])
  {
    ListTagKinds();
  }

  /** The inner list end: the nested list becomes the children of the last node of the list. */
  lemma CloseNested(st: ParserState, a: TOCNode, b: TOCNode, c: TOCNode)
    requires st.stack == [[], [a, b], [c]]
    ensures Transition(st, "/UL") == st.(stack := [[], [a, b.(children := [c])]])
  {
    ListTagKinds();
    CloseListStep(st, "/UL");
    assert st.stack[..1] == [[]];
    assert st.stack[1] == [a, b] && st.stack[2] == [c];
    assert [a, b][..1] == [a] && [a, b][1] == b;
    assert [a] + [b.(children := [c])] == [a, b.(children := [c])];
    assert [[]] + [[a, b.(children := [c])]] == [[], [a, b.(children := [c])]];
  }

  /** The outer list end: an empty outer level takes the list's nodes. */
  lemma CloseOuter(st: ParserState, xs: seq<TOCNode>)
    requires st.stack == [[], xs]
    ensures Transition(st, "/UL") == st.(stack := [xs])
  {
    ListTagKinds();
    CloseListStep(st, "/UL");
    assert st.stack[..0] == [];
    assert [] + xs == xs;
  }

  /** The closing tags of the document: both lists end, the outer tags change nothing. */
  lemma ExampleClosing(st: ParserState, a: TOCNode, b: TOCNode, c: TOCNode)
    requires st.stack == [[], [a, b], [c]]
    ensures Run(st, ["/UL", "/UL", "/BODY", "/HTML"]) == st.(stack := [[a, b.(children := [c])]])
  {
    assert ["/UL", "/UL", "/BODY", "/HTML"] == ["/UL", "/UL"] + ["/BODY", "/HTML"];
    RunAppend(st, ["/UL", "/UL"], ["/BODY", "/HTML"]);
    CloseLists(st, a, b, c);
    OuterEnd(st.(stack := [[a, b.(children := [c])]]));
  }

  /** Both list ends: the nested list folds into the last node, the outer list into the root. */
  lemma CloseLists(st: ParserState, a: TOCNode, b: TOCNode, c: TOCNode)
    requires st.stack == [[], [a, b], [c]]
    ensures Run(st, ["/UL", "/UL"]) == st.(stack := [[a, b.(children := [c])]])
  {
    var folded := [a, b.(children := [c])];
    CloseNested(st, a, b, c);
    CloseOuter(st.(stack := [[], folded]), folded);
    RunTwo(st, ["/UL", "/UL"]);
    assert ["/UL", "/UL"][2..] == [];
  }

  /** The document's closing tags change nothing. */
  lemma OuterEnd(st: ParserState)
    requires |st.stack| >= 1
    ensures Run(st, ["/BODY", "/HTML"]) == st
  {
    DocumentTagKinds();
    RunTwo(st, ["/BODY", "/HTML"]);
    assert ["/BODY", "/HTML"][2..] == [];
  }

  /**
   * The expectations of the parser's test on its document: two top-level
   * nodes, the first titled by the first Name at the rooted first Local, the
   * second with exactly one child, the third entry.
   */
  lemma ExampleParse(n1: string, l1: string, n2: string, l2: string, n3: string, l3: string)
    requires PlainEntry(n1, l1) && PlainEntry(n2, l2) && PlainEntry(n3, l3)
    ensures var nodes := Flatten(Run(Initial, ExampleTags(n1, l1, n2, l2, n3, l3)).stack);
            nodes == [EntryNode(n1, l1), EntryNode(n2, l2).(children := [EntryNode(n3, l3)])] &&
            |nodes| == 2 && nodes[0].title == n1 && nodes[0].path == Some("/" + l1) &&
            nodes[1].title == n2 && |nodes[1].children| == 1 && nodes[1].children[0].title == n3
  {
    ExampleRun(n1, l1, n2, l2, n3, l3);
  }

  /** The whole run over the example's tags ends with one level holding the forest. */
  lemma ExampleRun(n1: string, l1: string, n2: string, l2: string, n3: string, l3: string)
    requires PlainEntry(n1, l1) && PlainEntry(n2, l2) && PlainEntry(n3, l3)
    ensures Run(Initial, ExampleTags(n1, l1, n2, l2, n3, l3)) ==
            ParserState([[EntryNode(n1, l1), EntryNode(n2, l2).(children := [EntryNode(n3, l3)])]],
                        Some(n3), Some(l3), false)
  {
    var front := ["HTML", "BODY", "UL"] + (EntryTags(n1, l1) + EntryTags(n2, l2));
    var back := (["UL"] + EntryTags(n3, l3)) + ["/UL", "/UL", "/BODY", "/HTML"];
    RunAppend(Initial, front, back);
    ExampleFront(n1, l1, n2, l2);
    ExampleBack(ParserState([[], [EntryNode(n1, l1), EntryNode(n2, l2)]], Some(n2), Some(l2), false),
                EntryNode(n1, l1), EntryNode(n2, l2), n3, l3);
  }

  /** The opening tags and the first two entries. */
  lemma ExampleFront(n1: string, l1: string, n2: string, l2: string)
    requires PlainEntry(n1, l1) && PlainEntry(n2, l2)
    ensures Run(Initial, ["HTML", "BODY", "UL"] + (EntryTags(n1, l1) + EntryTags(n2, l2))) ==
            ParserState([[], [EntryNode(n1, l1), EntryNode(n2, l2)]], Some(n2), Some(l2), false)
  {
    RunAppend(Initial, ["HTML", "BODY", "UL"], EntryTags(n1, l1) + EntryTags(n2, l2));
    ExampleOpening();
    ExampleFirstEntries(ParserState([[], []], None, None, false), n1, l1, n2, l2);
  }

  /** The nested list with its entry, then the closing tags: the entry becomes the last node's child. */
  lemma ExampleBack(st: ParserState, a: TOCNode, b: TOCNode, n3: string, l3: string)
    requires st.stack == [[], [a, b]] && !st.inObject && PlainEntry(n3, l3)
    ensures Run(st, (["UL"] + EntryTags(n3, l3)) + ["/UL", "/UL", "/BODY", "/HTML"]) ==
            ParserState([[a, b.(children := [EntryNode(n3, l3)])]], Some(n3), Some(l3), false)
  {
    var deeper := ParserState(st.stack + [[EntryNode(n3, l3)]], Some(n3), Some(l3), false);
    RunAppend(st, ["UL"] + EntryTags(n3, l3), ["/UL", "/UL", "/BODY", "/HTML"]);
    ExampleNested(st, n3, l3);
    assert deeper.stack == [[], [a, b], [EntryNode(n3, l3)]];
    ExampleClosing(deeper, a, b, EntryNode(n3, l3));
  }
}
