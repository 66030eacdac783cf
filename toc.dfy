/**
 * The table-of-contents parser for `.hhc` files
 * (Sources/CHMKit/CHMTableOfContents.swift).
 *
 * The source scans the markup tag by tag and drives a small state machine: a
 * stack of sibling lists, the pending Name and Local of the current OBJECT,
 * and whether an OBJECT is open. `Parse` is that loop; `TagsFrom`, `Step`,
 * `Run` and `Flatten` are its specification, and the lemmas below state what
 * each transition does to the forest being built.
 */
module TableOfContents {

  import opened Common
  import opened Strings

  /** A node of the table of contents (the source's random `id` is not modelled). */
  datatype TOCNode = TOCNode(title: string, path: Option<string>, children: seq<TOCNode>)

  // ---------------------------------------------------------------------
  // Counting nodes
  // ---------------------------------------------------------------------

  /** Number of nodes in a forest, descendants included. */
  function Count(nodes: seq<TOCNode>): nat
    decreases nodes
  {
    if nodes == [] then 0 else 1 + Count(nodes[0].children) + Count(nodes[1..])
  }

  lemma {:induction false} CountAppend(a: seq<TOCNode>, b: seq<TOCNode>)
    ensures Count(a + b) == Count(a) + Count(b)
    decreases |a|
  {
    if a == [] {
      assert a + b == b;
    } else {
      assert (a + b)[1..] == a[1..] + b;
      CountAppend(a[1..], b);
    }
  }

  /** Number of nodes held by all levels of a stack. */
  function CountStack(stack: seq<seq<TOCNode>>): nat
    decreases |stack|
  {
    if stack == [] then 0 else CountStack(stack[..|stack| - 1]) + Count(stack[|stack| - 1])
  }

  /** All levels of a stack, bottom first, concatenated. */
  function Concat(stack: seq<seq<TOCNode>>): seq<TOCNode>
    decreases |stack|
  {
    if stack == [] then [] else Concat(stack[..|stack| - 1]) + stack[|stack| - 1]
  }

  lemma {:induction false} CountConcat(stack: seq<seq<TOCNode>>)
    ensures Count(Concat(stack)) == CountStack(stack)
    decreases |stack|
  {
    if stack != [] {
      CountConcat(stack[..|stack| - 1]);
      CountAppend(Concat(stack[..|stack| - 1]), stack[|stack| - 1]);
    }
  }

  // ---------------------------------------------------------------------
  // The tag scanner
  // ---------------------------------------------------------------------

  /**
   * The raw tags the scanner finds from position `i` on: the text after each
   * `<` up to the next `>`, or up to the end of the input when no `>` follows.
   * An empty tag (`<>`) is skipped; text between tags is discarded.
   */
  function TagsFrom(s: string, i: nat): (tags: seq<string>)
    requires i <= |s|
    decreases |s| - i
  {
    if i == |s| then []
    else
      match NextTag(s, i)
      case End => []
      case Empty(next) => TagsFrom(s, next)
      case Tag(raw, next) => [raw] + TagsFrom(s, next)
  }

  /** What one round of the scanner finds. */
  datatype Scan = End | Empty(next: nat) | Tag(raw: string, next: nat)

  /**
   * One round of the scanner loop: skip to the next `<` (none: `End`), then
   * read up to the next `>` or the end of input; `<>` gives `Empty`. Every
   * round that does not end moves forward.
   */
  function NextTag(s: string, i: nat): (r: Scan)
    requires i < |s|
    ensures r.End? <==> forall k :: i <= k < |s| ==> s[k] != '<'
    ensures !r.End? ==> i < r.next <= |s|
    ensures r.Tag? ==> r.raw != [] && '>' !in r.raw
  {
    var lt := IndexOf(s, i, '<');
    if lt == |s| then End
    else
      var gt := IndexOf(s, lt + 1, '>');
      if gt == lt + 1 then Empty(lt + 1)
      else
        var raw := s[lt + 1..gt];
        assert forall c :: c in raw ==> c != '>';
        Tag(raw, if gt < |s| then gt + 1 else gt)
  }

  /** Every tag's text is non-empty and holds no `>`; text without a `<` holds no tags. */
  lemma {:induction false} TagsShape(s: string, i: nat)
    requires i <= |s|
    ensures forall t :: t in TagsFrom(s, i) ==> t != [] && '>' !in t
    ensures '<' !in s[i..] ==> TagsFrom(s, i) == []
    decreases |s| - i
  {
    if i < |s| {
      match NextTag(s, i)
      case End =>
      case Empty(next) =>
        TagsShape(s, next);
        assert s[next..] == s[i..][next - i..];
      case Tag(raw, next) =>
        TagsShape(s, next);
    }
  }

  // ---------------------------------------------------------------------
  // The state machine
  // ---------------------------------------------------------------------

  datatype ParserState = ParserState(
    stack: seq<seq<TOCNode>>,
    currentName: Option<string>,
    currentLocal: Option<string>,
    inObject: bool)

  /** One empty root level, nothing pending, no OBJECT open. */
  const Initial := ParserState([[]], None, None, false)

  /** What a trimmed, lower-cased tag is, by prefix, tested in the source's order. */
  datatype TagKind = OpenList | CloseList | OpenObject | CloseObject | ParamTag | OtherTag

  function Classify(lower: string): TagKind {
    if HasPrefix(lower, "ul") then OpenList
    else if HasPrefix(lower, "/ul") then CloseList
    else if HasPrefix(lower, "object") then OpenObject
    else if HasPrefix(lower, "/object") then CloseObject
    else if HasPrefix(lower, "param") then ParamTag
    else OtherTag
  }

  /**
   * `/ul`: with one level nothing happens. Otherwise the top level is popped;
   * if the new top has a last node, that node's children are REPLACED by the
   * popped list; if the new top is empty the popped nodes are appended to it.
   */
  function PopLevel(stack: seq<seq<TOCNode>>): (r: seq<seq<TOCNode>>)
    requires |stack| >= 1
    ensures |stack| == 1 ==> r == stack
    ensures |stack| > 1 ==> |r| == |stack| - 1 && r[..|r| - 1] == stack[..|stack| - 2]
  {
    if |stack| == 1 then stack
    else
      var children := stack[|stack| - 1];
      var rest := stack[..|stack| - 1];
      var top := rest[|rest| - 1];
      if top != [] then
        var parent := top[|top| - 1];
        rest[..|rest| - 1] + [top[..|top| - 1] + [parent.(children := children)]]
      else
        rest[..|rest| - 1] + [top + children]
  }

  /** Appends `node` to the top level. */
  function AppendToTop(stack: seq<seq<TOCNode>>, node: TOCNode): (r: seq<seq<TOCNode>>)
    requires |stack| >= 1
    ensures |r| == |stack| && r[..|r| - 1] == stack[..|stack| - 1]
    ensures r[|r| - 1] == stack[|stack| - 1] + [node]
  {
    stack[..|stack| - 1] + [stack[|stack| - 1] + [node]]
  }

  /**
   * The target of a node: the Local value, rooted with a `/` unless it
   * already starts with one; no Local means no target.
   */
  function RootedPath(local: Option<string>): (r: Option<string>)
    ensures r.Some? <==> local.Some?
    ensures r.Some? ==> HasPrefix(r.value, "/") && HasSuffix(r.value, local.value)
    ensures r.Some? ==> |r.value| <= |local.value| + 1
    ensures r.Some? && HasPrefix(local.value, "/") ==> r.value == local.value
  {
    match local
    case None => None
    case Some(p) =>
      if HasPrefix(p, "/") then Some(p)
      else
        assert ("/" + p)[1..] == p;
        Some("/" + p)
  }

  /** `/object`: emits a node when an OBJECT is open and has a Name; always closes the OBJECT. */
  function EndObject(st: ParserState): (r: ParserState)
    requires |st.stack| >= 1
    ensures |r.stack| == |st.stack|
  {
    if st.inObject && st.currentName.Some? then
      var node := TOCNode(st.currentName.value, RootedPath(st.currentLocal), []);
      st.(stack := AppendToTop(st.stack, node), inObject := false)
    else
      st.(inObject := false)
  }

  /** `<param name=".." value="..">` inside an OBJECT: a Name is entity-decoded, a Local kept raw. */
  function ApplyParam(st: ParserState, attrs: map<string, string>): (r: ParserState)
    ensures r.stack == st.stack
  {
    var paramName := Lower(if "name" in attrs then attrs["name"] else "");
    var paramValue := if "value" in attrs then attrs["value"] else "";
    if paramName == "name" then st.(currentName := Some(DecodeEntities(paramValue)))
    else if paramName == "local" then st.(currentLocal := Some(paramValue))
    else st
  }

  /** One transition, for the raw text of one tag: its blanks are trimmed first. */
  function Step(st: ParserState, raw: string): (r: ParserState)
    requires |st.stack| >= 1
    ensures |r.stack| >= 1
  {
    Transition(st, Trim(raw, IsBlank))
  }

  /** One transition, for a trimmed tag. */
  function Transition(st: ParserState, tag: string): (r: ParserState)
    requires |st.stack| >= 1
    ensures |r.stack| >= 1
  {
    match Classify(Lower(tag))
    case OpenList => st.(stack := st.stack + [[]])
    case CloseList => st.(stack := PopLevel(st.stack))
    case OpenObject => st.(inObject := true, currentName := None, currentLocal := None)
    case CloseObject => EndObject(st)
    case ParamTag => if st.inObject then ApplyParam(st, AttributesOf(tag)) else st
    case OtherTag => st
  }

  function Run(st: ParserState, tags: seq<string>): (r: ParserState)
    requires |st.stack| >= 1
    ensures |r.stack| >= 1
    decreases |tags|
  {
    if tags == [] then st else Run(Step(st, tags[0]), tags[1..])
  }

  /** End of input: each open level is appended to the level below until one remains. */
  function Flatten(stack: seq<seq<TOCNode>>): seq<TOCNode>
    requires |stack| >= 1
    decreases |stack|
  {
    if |stack| == 1 then stack[0]
    else Flatten(stack[..|stack| - 2] + [stack[|stack| - 2] + stack[|stack| - 1]])
  }

  /** The forest `Parse` returns for `html`. */
  function ParseSpec(html: string): seq<TOCNode> {
    Flatten(Run(Initial, TagsFrom(html, 0)).stack)
  }

  // ---------------------------------------------------------------------
  // The parser as the source writes it
  // ---------------------------------------------------------------------

  /** `TOCParser.parse(html:)`. */
  method Parse(html: string) returns (nodes: seq<TOCNode>)
    ensures nodes == ParseSpec(html)
  {
    var stack: seq<seq<TOCNode>> := [[]];
    var currentName: Option<string> := None;
    var currentLocal: Option<string> := None;
    var inObject := false;
    var pos := 0;
    while pos < |html|
      invariant pos <= |html| && |stack| >= 1
      invariant Run(ParserState(stack, currentName, currentLocal, inObject), TagsFrom(html, pos))
                == Run(Initial, TagsFrom(html, 0))
      decreases |html| - pos
    {
      ghost var before := ParserState(stack, currentName, currentLocal, inObject);
      var scan := NextTag(html, pos);
      match scan
      case End =>
        break;
      case Empty(next) =>
        pos := next;
      case Tag(raw, next) =>
        pos := next;
        var tag := Trim(raw, IsBlank);
        stack, currentName, currentLocal, inObject := HandleTag(stack, currentName, currentLocal, inObject, tag);
        RunCons(before, raw, TagsFrom(html, pos));
    }
    nodes := FlattenStack(stack);
  }

  lemma RunCons(st: ParserState, t: string, rest: seq<string>)
    requires |st.stack| >= 1
    ensures Run(st, [t] + rest) == Run(Transition(st, Trim(t, IsBlank)), rest)
  {
    assert ([t] + rest)[1..] == rest;
  }

  /** The end of `parse(html:)`: each open level is appended to the level below. */
  method FlattenStack(stack0: seq<seq<TOCNode>>) returns (nodes: seq<TOCNode>)
    requires |stack0| >= 1
    ensures nodes == Flatten(stack0)
  {
    var stack := stack0;
    while |stack| > 1
      invariant |stack| >= 1 && Flatten(stack) == Flatten(stack0)
      decreases |stack|
    {
      ghost var before := stack;
      var children := stack[|stack| - 1];
      stack := stack[..|stack| - 1];
      stack := stack[..|stack| - 1] + [stack[|stack| - 1] + children];
      assert stack == before[..|before| - 2] + [before[|before| - 2] + before[|before| - 1]];
    }
    nodes := stack[0];
  }

  /** The loop body of `parse(html:)` for one trimmed tag. */
  method HandleTag(stack0: seq<seq<TOCNode>>, currentName0: Option<string>, currentLocal0: Option<string>,
                   inObject0: bool, tag: string)
    returns (stack: seq<seq<TOCNode>>, currentName: Option<string>, currentLocal: Option<string>, inObject: bool)
    requires |stack0| >= 1
    ensures ParserState(stack, currentName, currentLocal, inObject)
            == Transition(ParserState(stack0, currentName0, currentLocal0, inObject0), tag)
  {
    ghost var before := ParserState(stack0, currentName0, currentLocal0, inObject0);
    stack, currentName, currentLocal, inObject := stack0, currentName0, currentLocal0, inObject0;
    var tagLower := Lower(tag);
    if HasPrefix(tagLower, "ul") {
      // Push a new children level
      stack := stack + [[]];
    } else if HasPrefix(tagLower, "/ul") {
      assert Transition(before, tag) == before.(stack := PopLevel(stack0));
      stack := CloseLevel(stack);
    } else if HasPrefix(tagLower, "object") {
      inObject := true;
      currentName := None;
      currentLocal := None;
    } else if HasPrefix(tagLower, "/object") {
      assert Transition(before, tag) == EndObject(before);
      if inObject && currentName.Some? {
        var path := None;
        if currentLocal.Some? {
          var p := currentLocal.value;
          path := Some(if HasPrefix(p, "/") then p else "/" + p);
        }
        var node := TOCNode(currentName.value, path, []);
        stack := stack[..|stack| - 1] + [stack[|stack| - 1] + [node]];
      }
      inObject := false;
    } else if inObject && HasPrefix(tagLower, "param") {
      assert Transition(before, tag) == ApplyParam(before, AttributesOf(tag));
      var attrs := ParseAttributes(tag);
      var paramName := Lower(if "name" in attrs then attrs["name"] else "");
      var paramValue := if "value" in attrs then attrs["value"] else "";
      if paramName == "name" {
        var decoded := DecodeHTMLEntities(paramValue);
        currentName := Some(decoded);
      } else if paramName == "local" {
        currentLocal := Some(paramValue);
      }
    } else {
      assert Transition(before, tag) == before;
    }
  }

  /** The `/ul` branch: pop the top level and hang it under the parent level's last node. */
  method CloseLevel(stack0: seq<seq<TOCNode>>) returns (stack: seq<seq<TOCNode>>)
    requires |stack0| >= 1
    ensures stack == PopLevel(stack0)
  {
    stack := stack0;
    if |stack| <= 1 {
      return;
    }
    var children := stack[|stack| - 1];
    stack := stack[..|stack| - 1];
    var top := stack[|stack| - 1];
    if top != [] {
      var parent := top[|top| - 1];
      stack := stack[..|stack| - 1] + [top[..|top| - 1]];
      parent := parent.(children := children);
      stack := stack[..|stack| - 1] + [stack[|stack| - 1] + [parent]];
    } else {
      // No parent node: merge the children up
      stack := stack[..|stack| - 1] + [top + children];
    }
  }

  /** `TOCParser.parse(data:)`: UTF-8 first, then Windows-1252, else `tocParseFailed`. */
  method ParseData(data: Bytes, codec: TextCodec) returns (r: Result<seq<TOCNode>, ChmError>)
    ensures codec.utf8(data).Some? ==> r == Ok(ParseSpec(codec.utf8(data).value))
    ensures codec.utf8(data).None? && codec.cp1252(data).Some? ==> r == Ok(ParseSpec(codec.cp1252(data).value))
    ensures codec.utf8(data).None? && codec.cp1252(data).None? ==> r == Err(TocParseFailed)
  {
    var html: string;
    var utf8 := codec.utf8(data);
    if utf8.Some? {
      html := utf8.value;
    } else {
      var win1252 := codec.cp1252(data);
      if win1252.Some? {
        html := win1252.value;
      } else {
        return Err(TocParseFailed);
      }
    }
    var nodes := Parse(html);
    return Ok(nodes);
  }

  // ---------------------------------------------------------------------
  // Attributes: the pattern (\w+)\s*=\s*"([^"]*)"
  // ---------------------------------------------------------------------

  /** The attribute pattern tried at the start of `t`: the key, the value and the length of the match. */
  function AttributeAt(t: string): (r: Option<(string, string, nat)>)
    ensures r.Some? ==> 0 < r.value.2 <= |t|
    ensures r.Some? ==> r.value.0 != [] && (forall c :: c in r.value.0 ==> IsWordChar(c))
    ensures r.Some? ==> '"' !in r.value.1
  {
    var keyEnd := SkipWhile(t, 0, IsWordChar);
    if keyEnd == 0 then None
    else
      var eq := SkipWhile(t, keyEnd, IsRegexSpace);
      if eq == |t| || t[eq] != '=' then None
      else
        var quote := SkipWhile(t, eq + 1, IsRegexSpace);
        if quote == |t| || t[quote] != '"' then None
        else
          var close := IndexOf(t, quote + 1, '"');
          if close == |t| then None
          else Some((t[..keyEnd], t[quote + 1..close], close + 1))
  }

  /**
   * Every match of the pattern in `t`, left to right, without overlap: the
   * search resumes after a match, and one character on where none starts.
   */
  function AttributeMatches(t: string): (ms: seq<(string, string)>)
    ensures forall m :: m in ms ==> m.0 != [] && '"' !in m.1
    decreases |t|
  {
    if t == [] then []
    else
      match AttributeAt(t)
      case Some((key, value, end)) => [(key, value)] + AttributeMatches(t[end..])
      case None => AttributeMatches(t[1..])
  }

  /** The dictionary the matches fill in order: lower-cased key, verbatim value. */
  function ToMap(ms: seq<(string, string)>): map<string, string>
    decreases |ms|
  {
    if ms == [] then map[]
    else ToMap(ms[..|ms| - 1])[Lower(ms[|ms| - 1].0) := ms[|ms| - 1].1]
  }

  function AttributesOf(tag: string): map<string, string> {
    ToMap(AttributeMatches(tag))
  }

  /** `parseAttributes`. */
  method ParseAttributes(tag: string) returns (attrs: map<string, string>)
    ensures attrs == AttributesOf(tag)
  {
    attrs := map[];
    var matches := AttributeMatches(tag);
    for j := 0 to |matches|
      invariant attrs == ToMap(matches[..j])
    {
      assert matches[..j + 1][..j] == matches[..j];
      attrs := attrs[Lower(matches[j].0) := matches[j].1];
    }
    assert matches[..|matches|] == matches;
  }

  /** A key is in the dictionary exactly when some match has it, ignoring case. */
  lemma {:induction false} ToMapKeys(ms: seq<(string, string)>, k: string)
    ensures k in ToMap(ms) <==> exists j :: 0 <= j < |ms| && Lower(ms[j].0) == k
    decreases |ms|
  {
    if ms != [] {
      var init := ms[..|ms| - 1];
      ToMapKeys(init, k);
      if k in ToMap(init) {
        var j :| 0 <= j < |init| && Lower(init[j].0) == k;
        assert ms[j] == init[j];
      }
      if exists j :: 0 <= j < |ms| && Lower(ms[j].0) == k {
        var j :| 0 <= j < |ms| && Lower(ms[j].0) == k;
        if j < |init| {
          assert init[j] == ms[j];
        }
      }
    }
  }

  /** The value of a key is that of the LAST match that has it: later attributes override earlier ones. */
  lemma {:induction false} ToMapLastWins(ms: seq<(string, string)>, k: string, j: nat)
    requires j < |ms| && Lower(ms[j].0) == k
    requires forall j' :: j < j' < |ms| ==> Lower(ms[j'].0) != k
    ensures k in ToMap(ms) && ToMap(ms)[k] == ms[j].1
    decreases |ms|
  {
    if j < |ms| - 1 {
      var init := ms[..|ms| - 1];
      assert init[j] == ms[j];
      assert forall j' :: j < j' < |init| ==> init[j'] == ms[j'];
      ToMapLastWins(init, k, j);
    }
  }

  // ---------------------------------------------------------------------
  // Entity decoding
  // ---------------------------------------------------------------------

  /** The entities the decoder replaces, in the order it replaces them. */
  const Entities: seq<(string, string)> := [
    ("&amp;", "&"), ("&lt;", "<"), ("&gt;", ">"), ("&quot;", "\""),
    ("&#39;", "'"), ("&apos;", "'"), ("&nbsp;", " ")
  ]

  /** One case-insensitive replace-all pass per table entry, in table order. */
  function DecodeWith(s: string, table: seq<(string, string)>): string
    decreases |table|
  {
    if table == [] then s else DecodeWith(ReplaceAll(s, table[0].0, table[0].1, true), table[1..])
  }

  function DecodeEntities(s: string): string {
    DecodeWith(s, Entities)
  }

  /** `decodeHTMLEntities`. */
  method DecodeHTMLEntities(s: string) returns (result: string)
    ensures result == DecodeEntities(s)
  {
    result := s;
    for i := 0 to |Entities|
      invariant DecodeWith(result, Entities[i..]) == DecodeEntities(s)
    {
      assert Entities[i..][1..] == Entities[i + 1..];
      result := ReplaceAll(result, Entities[i].0, Entities[i].1, true);
    }
  }
}
