/**
 * What the table-of-contents parser does to the forest it builds, stated on
 * its specification functions: how each kind of tag changes the node count,
 * that the end-of-input flatten keeps every node, and what the entity
 * decoder and the attribute extractor return.
 */
module TocProperties {

  import opened Common
  import opened Strings
  import opened TableOfContents

  // ---------------------------------------------------------------------
  // Whole input
  // ---------------------------------------------------------------------

  /** Markup without any `<` (the empty string among it) gives an empty forest. */
  lemma NoTagsNoNodes(html: string)
    requires '<' !in html
    ensures ParseSpec(html) == []
  {
    assert html[0..] == html;
    TagsShape(html, 0);
  }

  // ---------------------------------------------------------------------
  // End of input
  // ---------------------------------------------------------------------

  /** Folding the open levels down one by one is the concatenation of all levels, bottom first. */
  lemma {:induction false} FlattenIsConcat(stack: seq<seq<TOCNode>>)
    requires |stack| >= 1
    ensures Flatten(stack) == Concat(stack)
    decreases |stack|
  {
    var n := |stack|;
    if n == 1 {
      assert stack[..0] == [];
    } else {
      var next := stack[..n - 2] + [stack[n - 2] + stack[n - 1]];
      FlattenIsConcat(next);
      assert next[..|next| - 1] == stack[..n - 2];
      assert stack[..n - 1][..n - 2] == stack[..n - 2];
      calc {
        Concat(next);
        Concat(stack[..n - 2]) + (stack[n - 2] + stack[n - 1]);
        (Concat(stack[..n - 2]) + stack[n - 2]) + stack[n - 1];
        Concat(stack[..n - 1]) + stack[n - 1];
      }
    }
  }

  /** The final flatten keeps every node that the open levels hold. */
  lemma FlattenKeepsCount(stack: seq<seq<TOCNode>>)
    requires |stack| >= 1
    ensures Count(Flatten(stack)) == CountStack(stack)
  {
    FlattenIsConcat(stack);
    CountConcat(stack);
  }

  // ---------------------------------------------------------------------
  // The effect of each tag on the node count
  // ---------------------------------------------------------------------

  lemma CountSingle(node: TOCNode)
    ensures Count([node]) == 1 + Count(node.children)
  {
    assert [node][1..] == [];
  }

  /**
   * `/ul` with more than one level: the popped nodes are kept, but the
   * parent's earlier children are discarded, because the parent's children
   * are overwritten rather than extended.
   */
  lemma PopLevelCount(stack: seq<seq<TOCNode>>)
    requires |stack| > 1
    ensures var top := stack[|stack| - 2];
            CountStack(PopLevel(stack)) + (if top != [] then Count(top[|top| - 1].children) else 0)
            == CountStack(stack)
  {
    var n := |stack|;
    var children := stack[n - 1];
    var top := stack[n - 2];
    var r := PopLevel(stack);
    assert stack[..n - 1][..n - 2] == stack[..n - 2];
    assert CountStack(stack) == CountStack(stack[..n - 2]) + Count(top) + Count(children);
    assert r[..n - 2] == stack[..n - 2];
    assert CountStack(r) == CountStack(stack[..n - 2]) + Count(r[n - 2]);
    if top != [] {
      var parent := top[|top| - 1];
      var init := top[..|top| - 1];
      assert top == init + [parent];
      CountAppend(init, [parent]);
      CountSingle(parent);
      CountAppend(init, [parent.(children := children)]);
      CountSingle(parent.(children := children));
    } else {
      assert r[n - 2] == children;
    }
  }

  /** The overwrite at work: a second nested list under the same node replaces the first. */
  lemma SecondListReplacesFirst()
    ensures var b := TOCNode("B", None, []);
            var c := TOCNode("C", None, []);
            var st := ParserState([[TOCNode("A", None, [b])], [c]], None, None, false);
            Transition(st, "/UL").stack == [[TOCNode("A", None, [c])]]
  {
    assert Lower("/UL") == "/ul";
    assert "/ul"[..2][0] != "ul"[0];
    assert "/ul"[..3] == "/ul";
    assert Classify("/ul") == CloseList;
    var b := TOCNode("B", None, []);
    var c := TOCNode("C", None, []);
    var stack: seq<seq<TOCNode>> := [[TOCNode("A", None, [b])], [c]];
    assert stack[..1] == [[TOCNode("A", None, [b])]];
    assert stack[..1][..0] == [] && stack[..1][0][..0] == [];
    var rest: seq<seq<TOCNode>> := stack[..1];
    assert PopLevel(stack) == rest[..0] + [rest[0][..0] + [rest[0][0].(children := stack[1])]];
    assert rest[0][0].(children := stack[1]) == TOCNode("A", None, [c]);
    assert rest[0][..0] + [TOCNode("A", None, [c])] == [TOCNode("A", None, [c])];
    assert PopLevel(stack) == [[TOCNode("A", None, [c])]];
  }

  /** `ul` opens an empty level and keeps every node. */
  lemma OpenListCount(st: ParserState, tag: string)
    requires |st.stack| >= 1 && Classify(Lower(tag)) == OpenList
    ensures |Transition(st, tag).stack| == |st.stack| + 1
    ensures CountStack(Transition(st, tag).stack) == CountStack(st.stack)
  {
    var r := Transition(st, tag).stack;
    assert r[..|r| - 1] == st.stack;
  }

  /**
   * `/object` adds exactly one node, on the top level, when an OBJECT is open
   * and has a Name, and none otherwise; the OBJECT is closed either way and
   * the pending Name and Local stay.
   */
  lemma EndObjectCount(st: ParserState)
    requires |st.stack| >= 1
    ensures !EndObject(st).inObject
    ensures EndObject(st).currentName == st.currentName && EndObject(st).currentLocal == st.currentLocal
    ensures CountStack(EndObject(st).stack) == CountStack(st.stack) + (if st.inObject && st.currentName.Some? then 1 else 0)
  {
    if st.inObject && st.currentName.Some? {
      var node := TOCNode(st.currentName.value, RootedPath(st.currentLocal), []);
      var r := EndObject(st).stack;
      var n := |r|;
      assert r[..n - 1] == st.stack[..n - 1];
      CountAppend(st.stack[n - 1], [node]);
      CountSingle(node);
    }
  }

  /** The node `/object` emits: titled by the Name, targeting the rooted Local. */
  lemma EndObjectNode(st: ParserState)
    requires |st.stack| >= 1 && st.inObject && st.currentName.Some?
    ensures var top := EndObject(st).stack[|st.stack| - 1];
            top[|top| - 1] == TOCNode(st.currentName.value, RootedPath(st.currentLocal), [])
  {
  }

  /** A tag outside the five kinds, or a `param` outside an OBJECT, changes nothing. */
  lemma IgnoredTag(st: ParserState, tag: string)
    requires |st.stack| >= 1
    requires Classify(Lower(tag)) == OtherTag || (Classify(Lower(tag)) == ParamTag && !st.inObject)
    ensures Transition(st, tag) == st
  {
  }

  /** `object` opens an OBJECT and forgets whatever Name and Local were pending. */
  lemma OpenObjectResets(st: ParserState, tag: string)
    requires |st.stack| >= 1 && Classify(Lower(tag)) == OpenObject
    ensures Transition(st, tag) == ParserState(st.stack, None, None, true)
  {
  }

  /** The classification ignores case: `<UL>` and `<ul>` are the same tag. */
  lemma ClassifyIgnoresCase(st: ParserState, a: string, b: string)
    requires |st.stack| >= 1 && Lower(a) == Lower(b) && Classify(Lower(a)) != ParamTag
    ensures Transition(st, a) == Transition(st, b)
  {
  }

  // ---------------------------------------------------------------------
  // The attribute pattern
  // ---------------------------------------------------------------------

  /** The text `key="value"`. */
  function Attr(key: string, value: string): string {
    key + "=\"" + value + "\""
  }

  /** A word made of lower-case letters, in any case, is made of word characters. */
  lemma LettersAreWordChars(x: string, w: string)
    requires Lower(x) == w && forall c :: c in w ==> 'a' <= c <= 'z'
    ensures forall k :: 0 <= k < |x| ==> IsWordChar(x[k])
  {
    forall k | 0 <= k < |x| ensures IsWordChar(x[k]) {
      assert Lower(x)[k] == LowerChar(x[k]) && w[k] in w;
    }
  }

  /** `SkipWhile` stops at the first position that fails `p`. */
  lemma SkipWhileStopsAt(s: string, i: nat, j: nat, p: char -> bool)
    requires i <= j < |s| && !p(s[j])
    requires forall k :: i <= k < j ==> p(s[k])
    ensures SkipWhile(s, i, p) == j
  {
  }

  /** `IndexOf` stops at the first occurrence. */
  lemma IndexOfStopsAt(s: string, i: nat, j: nat, c: char)
    requires i <= j < |s| && s[j] == c
    requires forall k :: i <= k < j ==> s[k] != c
    ensures IndexOf(s, i, c) == j
  {
  }

  /** Where the parts of `key="value"` lie at the start of a text. */
  lemma PairLayout(key: string, value: string, rest: string)
    ensures var t := Attr(key, value) + rest;
            var n := |key|;
            var close := n + 2 + |value|;
            |Attr(key, value)| == close + 1 && close < |t| &&
            t[..n] == key && t[n] == '=' && t[n + 1] == '"' &&
            t[n + 2..close] == value && t[close] == '"' &&
            (forall k :: 0 <= k < n ==> t[k] == key[k]) &&
            (forall k :: n + 2 <= k < close ==> t[k] == value[k - n - 2]) &&
            t[close + 1..] == rest
  {
    var t := Attr(key, value) + rest;
    assert t == key + ['='] + ['"'] + value + ['"'] + rest;
  }

  /**
   * `key="value"` at the start, with a non-empty word key and a value
   * without `"`, is matched there: the key and the value come back verbatim.
   */
  lemma AttributeAtPair(key: string, value: string, rest: string)
    requires key != [] && (forall k :: 0 <= k < |key| ==> IsWordChar(key[k])) && '"' !in value
    ensures AttributeAt(Attr(key, value) + rest) == Some((key, value, |Attr(key, value)|))
  {
    var t := Attr(key, value) + rest;
    var n := |key|;
    var close := n + 2 + |value|;
    PairLayout(key, value, rest);
    SkipWhileStopsAt(t, 0, n, IsWordChar);
    SkipWhileStopsAt(t, n, n, IsRegexSpace);
    SkipWhileStopsAt(t, n + 1, n + 1, IsRegexSpace);
    forall k | n + 2 <= k < close ensures t[k] != '"' {
      assert value[k - n - 2] in value;
    }
    IndexOfStopsAt(t, n + 2, close, '"');
  }

  /** `key="value"` at the start is the first match, and matching resumes after it. */
  lemma MatchesPairThen(key: string, value: string, rest: string)
    requires key != [] && (forall k :: 0 <= k < |key| ==> IsWordChar(key[k])) && '"' !in value
    ensures AttributeMatches(Attr(key, value) + rest) == [(key, value)] + AttributeMatches(rest)
  {
    AttributeAtPair(key, value, rest);
    PairLayout(key, value, rest);
  }

  /** A blank at the start is passed over. */
  lemma MatchesBlankThen(rest: string)
    ensures AttributeMatches([' '] + rest) == AttributeMatches(rest)
  {
    var t := [' '] + rest;
    assert SkipWhile(t, 0, IsWordChar) == 0;
    assert t[1..] == rest;
  }

  /** A word and a blank before a word character are passed over: no `=` follows the word. */
  lemma {:induction false} MatchesWordBlankThen(word: string, rest: string)
    requires forall k :: 0 <= k < |word| ==> IsWordChar(word[k])
    requires rest != [] && IsWordChar(rest[0])
    ensures AttributeMatches(word + [' '] + rest) == AttributeMatches(rest)
    decreases |word|
  {
    if word == [] {
      assert word + [' '] + rest == [' '] + rest;
      MatchesBlankThen(rest);
    } else {
      var t := word + [' '] + rest;
      var n := |word|;
      assert forall k :: 0 <= k < n ==> t[k] == word[k];
      assert t[n] == ' ' && t[n + 1] == rest[0];
      SkipWhileStopsAt(t, 0, n, IsWordChar);
      SkipWhileStopsAt(t, n, n + 1, IsRegexSpace);
      assert AttributeAt(t).None?;
      assert t[1..] == word[1..] + [' '] + rest;
      MatchesWordBlankThen(word[1..], rest);
    }
  }

  /** The text of a `param` tag: the tag name, a name attribute and a value attribute. */
  function ParamText(tagName: string, nameKey: string, name: string, valueKey: string, value: string): string {
    tagName + " " + (Attr(nameKey, name) + " " + Attr(valueKey, value))
  }

  /** `key="value"` alone is one match. */
  lemma OnePairMatches(key: string, value: string)
    requires key != [] && (forall k :: 0 <= k < |key| ==> IsWordChar(key[k])) && '"' !in value
    ensures AttributeMatches(Attr(key, value)) == [(key, value)]
  {
    assert Attr(key, value) + [] == Attr(key, value);
    MatchesPairThen(key, value, []);
  }

  /** `key1="v1"`, a blank and `key2="v2"`: the two pairs, in order. */
  lemma PairBlankPairMatches(key1: string, v1: string, key2: string, v2: string)
    requires key1 != [] && forall k :: 0 <= k < |key1| ==> IsWordChar(key1[k])
    requires key2 != [] && forall k :: 0 <= k < |key2| ==> IsWordChar(key2[k])
    requires '"' !in v1 && '"' !in v2
    ensures AttributeMatches(Attr(key1, v1) + " " + Attr(key2, v2)) == [(key1, v1), (key2, v2)]
  {
    var a2 := Attr(key2, v2);
    var last := [' '] + a2;
    assert Attr(key1, v1) + " " + a2 == Attr(key1, v1) + last;
    MatchesPairThen(key1, v1, last);
    MatchesBlankThen(a2);
    OnePairMatches(key2, v2);
  }

  /**
   * A word, a blank, `key1="v1"`, a blank and `key2="v2"`: the two pairs are
   * the only matches, in order.
   */
  lemma TwoPairMatches(word: string, key1: string, v1: string, key2: string, v2: string)
    requires forall k :: 0 <= k < |word| ==> IsWordChar(word[k])
    requires key1 != [] && forall k :: 0 <= k < |key1| ==> IsWordChar(key1[k])
    requires key2 != [] && forall k :: 0 <= k < |key2| ==> IsWordChar(key2[k])
    requires '"' !in v1 && '"' !in v2
    ensures AttributeMatches(word + " " + (Attr(key1, v1) + " " + Attr(key2, v2))) == [(key1, v1), (key2, v2)]
  {
    var rest := Attr(key1, v1) + " " + Attr(key2, v2);
    assert rest[0] == key1[0];
    MatchesWordBlankThen(word, rest);
    PairBlankPairMatches(key1, v1, key2, v2);
  }

  /** Two matches with different keys fill two entries. */
  lemma ToMapTwo(m1: (string, string), m2: (string, string))
    ensures ToMap([m1, m2]) == map[Lower(m1.0) := m1.1][Lower(m2.0) := m2.1]
  {
    assert [m1, m2][..1] == [m1];
    assert [m1][..0] == [];
    assert ToMap([m1]) == map[Lower(m1.0) := m1.1];
  }

  /**
   * The attributes of `<param name="N" value="V">`, in any letter case of
   * the tag name and the keys: the keys are lower-cased, N and V are verbatim.
   */
  lemma ParamAttributes(tagName: string, nameKey: string, name: string, valueKey: string, value: string)
    requires Lower(tagName) == "param" && Lower(nameKey) == "name" && Lower(valueKey) == "value"
    requires '"' !in name && '"' !in value
    ensures AttributesOf(ParamText(tagName, nameKey, name, valueKey, value)) == map["name" := name, "value" := value]
  {
    LettersAreWordChars(tagName, "param");
    LettersAreWordChars(nameKey, "name");
    LettersAreWordChars(valueKey, "value");
    TwoPairMatches(tagName, nameKey, name, valueKey, value);
    ToMapTwo((nameKey, name), (valueKey, value));
  }

  // ---------------------------------------------------------------------
  // The effect of each tag on the pending state and the levels
  // ---------------------------------------------------------------------

  /** A tag whose name is `param` in any letter case is a parameter tag. */
  lemma ParamClassified(tagName: string, rest: string)
    requires Lower(tagName) == "param"
    ensures Classify(Lower(tagName + rest)) == ParamTag
  {
    LowerAppend(tagName, rest);
    var low := Lower(tagName + rest);
    assert low[..5] == "param";
    assert low[0] == 'p';
  }

  /**
   * A `param` tag: inside an OBJECT a Name is entity-decoded into the pending
   * Name and a Local is kept raw as the pending Local; the tag name, the keys
   * and the name compared against are all case-insensitive, and any other
   * name changes nothing. Outside an OBJECT the tag changes nothing.
   */
  lemma ParamStep(st: ParserState, tagName: string, nameKey: string, name: string, valueKey: string, value: string)
    requires |st.stack| >= 1
    requires Lower(tagName) == "param" && Lower(nameKey) == "name" && Lower(valueKey) == "value"
    requires '"' !in name && '"' !in value
    ensures Transition(st, ParamText(tagName, nameKey, name, valueKey, value)) ==
            if !st.inObject then st
            else if Lower(name) == "name" then st.(currentName := Some(DecodeEntities(value)))
            else if Lower(name) == "local" then st.(currentLocal := Some(value))
            else st
  {
    var tag := ParamText(tagName, nameKey, name, valueKey, value);
    var rest := " " + (Attr(nameKey, name) + " " + Attr(valueKey, value));
    assert tag == tagName + rest;
    ParamClassified(tagName, rest);
    ParamAttributes(tagName, nameKey, name, valueKey, value);
  }

  /** The letter cases of the tag name, the keys and the names the examples use. */
  lemma LowerLiterals()
    ensures Lower("param") == "param" && Lower("PARAM") == "param"
    ensures Lower("name") == "name" && Lower("NAME") == "name" && Lower("Name") == "name"
    ensures Lower("value") == "value" && Lower("VALUE") == "value"
    ensures Lower("Local") == "local" && Lower("local") == "local"
    ensures Lower("ImageNumber") != "name" && Lower("ImageNumber") != "local"
  {
    assert Lower("ImageNumber")[0] == 'i';
  }

  /** The Name parameter of the parser's test input. */
  lemma ParamNameExample(st: ParserState, v: string)
    requires |st.stack| >= 1 && st.inObject && '"' !in v
    ensures Transition(st, "param name=\"Name\" value=\"" + v + "\"") == st.(currentName := Some(DecodeEntities(v)))
  {
    LowerLiterals();
    NameText(v);
    ParamStep(st, "param", "name", "Name", "value", v);
  }

  /** The Local parameter of the parser's test input. */
  lemma ParamLocalExample(st: ParserState, v: string)
    requires |st.stack| >= 1 && st.inObject && '"' !in v
    ensures Transition(st, "param name=\"Local\" value=\"" + v + "\"") == st.(currentLocal := Some(v))
  {
    LowerLiterals();
    LocalText(v);
    ParamStep(st, "param", "name", "Local", "value", v);
  }

  /** The tag name, the keys and the parameter name in upper case. */
  lemma ParamUpperCaseExample(st: ParserState, v: string)
    requires |st.stack| >= 1 && st.inObject && '"' !in v
    ensures Transition(st, "PARAM NAME=\"local\" VALUE=\"" + v + "\"") == st.(currentLocal := Some(v))
  {
    LowerLiterals();
    UpperLocalText(v);
    ParamStep(st, "PARAM", "NAME", "local", "VALUE", v);
  }

  /** The texts of the example parameters in the form the parameter lemmas take. */
  lemma NameText(v: string)
    ensures "param name=\"Name\" value=\"" + v + "\"" == ParamText("param", "name", "Name", "value", v)
  {
  }

  lemma LocalText(v: string)
    ensures "param name=\"Local\" value=\"" + v + "\"" == ParamText("param", "name", "Local", "value", v)
  {
  }

  lemma UpperLocalText(v: string)
    ensures "PARAM NAME=\"local\" VALUE=\"" + v + "\"" == ParamText("PARAM", "NAME", "local", "VALUE", v)
  {
  }


  lemma ImageNumberText(v: string)
    ensures "param name=\"ImageNumber\" value=\"" + v + "\"" == ParamText("param", "name", "ImageNumber", "value", v)
  {
  }

  /** A parameter other than Name and Local is ignored. */
  lemma ParamOtherExample(st: ParserState, v: string)
    requires |st.stack| >= 1 && st.inObject && '"' !in v
    ensures Transition(st, "param name=\"ImageNumber\" value=\"" + v + "\"") == st
  {
    LowerLiterals();
    ImageNumberText(v);
    ParamStep(st, "param", "name", "ImageNumber", "value", v);
  }

  /**
   * `/ul` with an enclosing level: the popped list becomes the children of
   * the enclosing level's last node, which stays last; when the enclosing
   * level is empty the popped nodes are appended to it. The levels below,
   * the pending Name and Local and the OBJECT flag are untouched. With one
   * level the tag changes nothing.
   */
  lemma CloseListStep(st: ParserState, tag: string)
    requires |st.stack| >= 1 && Classify(Lower(tag)) == CloseList
    ensures |st.stack| == 1 ==> Transition(st, tag) == st
    ensures |st.stack| > 1 ==>
            var n := |st.stack|;
            var top := st.stack[n - 2];
            var popped := st.stack[n - 1];
            Transition(st, tag) == st.(stack := st.stack[..n - 2] +
              [if top != [] then top[..|top| - 1] + [top[|top| - 1].(children := popped)] else top + popped])
  {
    var n := |st.stack|;
    if n > 1 {
      assert st.stack[..n - 1][..n - 2] == st.stack[..n - 2];
    }
  }

  // ---------------------------------------------------------------------
  // Entity decoding
  // ---------------------------------------------------------------------

  /**
   * Every `&` of `s` is either last or followed by a character that cannot
   * start an entity name (not an ASCII letter or digit, not `#`).
   */
  predicate BareAmpersands(s: string) {
    forall i :: 0 <= i < |s| - 1 && s[i] == '&' ==> !IsAlnum(s[i + 1]) && s[i + 1] != '#'
  }

  /** An entity pattern: `&`, then a letter or `#`, then more. */
  predicate EntityPattern(pat: string) {
    |pat| >= 2 && pat[0] == '&' && (('a' <= pat[1] <= 'z') || pat[1] == '#')
  }

  lemma BareAmpersandsNoMatch(s: string, pat: string)
    requires BareAmpersands(s) && EntityPattern(pat)
    ensures forall i :: 0 <= i <= |s| ==> !MatchAt(s, i, pat, true)
  {
    forall i | 0 <= i <= |s| ensures !MatchAt(s, i, pat, true) {
      if i + |pat| <= |s| {
        var w := s[i..i + |pat|];
        assert Lower(w)[0] == LowerChar(s[i]) && Lower(w)[1] == LowerChar(s[i + 1]);
        assert Lower(pat)[0] == '&' && Lower(pat)[1] == pat[1];
      }
    }
  }

  lemma {:induction false} DecodeWithBare(s: string, table: seq<(string, string)>)
    requires BareAmpersands(s)
    requires forall e :: e in table ==> EntityPattern(e.0)
    ensures DecodeWith(s, table) == s
    decreases |table|
  {
    if table != [] {
      BareAmpersandsNoMatch(s, table[0].0);
      DecodeWithBare(s, table[1..]);
    }
  }

  /** A string whose every `&` is bare, in particular one with no `&` at all, comes back unchanged. */
  lemma BareAmpersandsUnchanged(s: string)
    requires BareAmpersands(s)
    ensures DecodeEntities(s) == s
  {
    DecodeWithBare(s, Entities);
  }

  lemma NoAmpersandUnchanged(s: string)
    requires '&' !in s
    ensures DecodeEntities(s) == s
  {
    NoAmpersandIsBare(s);
    BareAmpersandsUnchanged(s);
  }

  lemma NoAmpersandIsBare(s: string)
    requires '&' !in s
    ensures BareAmpersands(s)
  {
    forall i | 0 <= i < |s| ensures s[i] != '&' {
      assert s[i] in s;
    }
  }

  /** An `&` followed by a space, amid text without `&`, is bare. */
  lemma AmpersandSpaceIsBare(a: string, b: string)
    requires '&' !in a && '&' !in b && b != [] && b[0] == ' '
    ensures BareAmpersands(a + "&" + b)
  {
    var s := a + "&" + b;
    forall i | 0 <= i < |s| && i != |a| ensures s[i] != '&' {
      if i < |a| {
        assert s[i] == a[i] && a[i] in a;
      } else {
        assert s[i] == b[i - |a| - 1] && b[i - |a| - 1] in b;
      }
    }
    assert s[|a| + 1] == ' ';
  }

  /** Text before the first `&` is copied through by a pass for an entity. */
  lemma {:induction false} ReplaceAllSkipsPlainPrefix(a: string, t: string, pat: string, rep: string)
    requires '&' !in a && EntityPattern(pat)
    ensures ReplaceAll(a + t, pat, rep, true) == a + ReplaceAll(t, pat, rep, true)
    decreases |a|
  {
    if a != [] {
      var s := a + t;
      assert s[0] == a[0] && a[0] in a;
      if |s| >= |pat| {
        assert Lower(s[0..|pat|])[0] == LowerChar(a[0]) != '&';
        assert !MatchAt(s, 0, pat, true);
        assert s[1..] == a[1..] + t;
        assert a[1..] + ReplaceAll(t, pat, rep, true) == a[1..] + ReplaceAll(t, pat, rep, true);
        ReplaceAllSkipsPlainPrefix(a[1..], t, pat, rep);
        assert a == [a[0]] + a[1..];
      }
    } else {
      assert a + t == t;
    }
  }

  lemma EntitiesArePatterns()
    ensures forall e :: e in Entities ==> EntityPattern(e.0)
  {
  }

  /** The first pass of the decoder replaces `&amp;`. */
  lemma FirstPass(s: string)
    ensures DecodeEntities(s) == DecodeWith(ReplaceAll(s, "&amp;", "&", true), Entities[1..])
  {
  }

  /** The chained passes: `&amp;lt;` becomes `&lt;` in the first pass and `<` in the second. */
  lemma DoubleEscapeDecodesTwice()
    ensures DecodeEntities("&amp;lt;") == "<"
  {
    var s := "&amp;lt;";
    assert s[0..5] == "&amp;";
    assert s[5..] == "lt;";
    assert ReplaceAll(s, "&amp;", "&", true) == "&" + ReplaceAll("lt;", "&amp;", "&", true);
    var s1 := "&lt;";
    assert ReplaceAll(s, "&amp;", "&", true) == s1;
    FirstPass(s);
    assert Entities[1..][0] == ("&lt;", "<");
    assert s1[0..4] == "&lt;";
    assert ReplaceAll(s1, "&lt;", "<", true) == "<" + ReplaceAll([], "&lt;", "<", true);
    assert DecodeWith(s1, Entities[1..]) == DecodeWith("<", Entities[2..]) by {
      assert Entities[1..][1..] == Entities[2..];
    }
    assert BareAmpersands("<");
    EntitiesArePatterns();
    DecodeWithBare("<", Entities[2..]);
  }

  /** A pass over text that starts with its own pattern replaces it there. */
  lemma ReplaceAllAtMatch(pat: string, rest: string, rep: string)
    requires pat != []
    ensures ReplaceAll(pat + rest, pat, rep, true) == rep + ReplaceAll(rest, pat, rep, true)
  {
    assert (pat + rest)[0..|pat|] == pat;
    assert (pat + rest)[|pat|..] == rest;
  }

  /**
   * One `&amp;` followed by a space, amid text without `&`, decodes to a
   * plain `&`: the later passes find nothing to replace after it.
   */
  lemma EscapedAmpersandDecodes(a: string, b: string)
    requires '&' !in a && '&' !in b && b != [] && b[0] == ' '
    ensures DecodeEntities(a + "&amp;" + b) == a + "&" + b
  {
    assert a + "&amp;" + b == a + ("&amp;" + b);
    ReplaceAllSkipsPlainPrefix(a, "&amp;" + b, "&amp;", "&");
    ReplaceAllAtMatch("&amp;", b, "&");
    NoAmpersandIsBare(b);
    BareAmpersandsNoMatch(b, "&amp;");
    assert ReplaceAll(a + "&amp;" + b, "&amp;", "&", true) == a + "&" + b;
    FirstPass(a + "&amp;" + b);
    AmpersandSpaceIsBare(a, b);
    EntitiesArePatterns();
    DecodeWithBare(a + "&" + b, Entities[1..]);
  }

  /** The title of the HTML-entities test case: `C++ &amp; Templates` becomes `C++ & Templates`. */
  lemma AmpersandInTitle()
    ensures DecodeEntities("C++ " + "&amp;" + " Templates") == "C++ " + "&" + " Templates"
  {
    EscapedAmpersandDecodes("C++ ", " Templates");
  }

  lemma {:induction false} DecodeWithShrinks(s: string, table: seq<(string, string)>)
    requires forall e :: e in table ==> |e.1| <= |e.0|
    ensures |DecodeWith(s, table)| <= |s|
    decreases |table|
  {
    if table != [] {
      DecodeWithShrinks(ReplaceAll(s, table[0].0, table[0].1, true), table[1..]);
    }
  }

  /** Every entity is longer than its replacement, so decoding never lengthens a title. */
  lemma DecodeShrinks(s: string)
    ensures |DecodeEntities(s)| <= |s|
  {
    EntitiesShrink();
    DecodeWithShrinks(s, Entities);
  }

  lemma EntitiesShrink()
    ensures forall e :: e in Entities ==> |e.1| <= |e.0|
  {
  }
}
