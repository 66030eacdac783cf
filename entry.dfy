/** One file inside the archive (Sources/CHMKit/CHMEntry.swift). */
module Entries {

  import opened Strings
  import Paths

  /**
   * An archive entry. The source also carries the entry's length and
   * storage space, which nothing in the modelled logic reads.
   */
  datatype Entry = Entry(path: string) {

    /** The entry's identity is its path. */
    function Id(): string {
      path
    }

    /** The entry is a page when its lower-cased path ends with ".htm" or ".html". */
    predicate IsHTML() {
      var lower := Lower(path);
      HasSuffix(lower, ".htm") || HasSuffix(lower, ".html")
    }

    /** The file name: the path's last component. */
    function Filename(): string {
      Paths.LastPathComponent(path)
    }
  }

  /** `filter { $0.isHTML }`: the HTML entries, in listing order. */
  function HtmlEntries(entries: seq<Entry>): (r: seq<Entry>)
    ensures forall e :: e in r <==> e in entries && e.IsHTML()
    decreases |entries|
  {
    if entries == [] then []
    else (if entries[0].IsHTML() then [entries[0]] else []) + HtmlEntries(entries[1..])
  }

  /** One entry is kept exactly when it is a page. */
  lemma HtmlEntriesOne(e: Entry)
    ensures HtmlEntries([e]) == if e.IsHTML() then [e] else []
  {
  }

  /**
   * The filter keeps order: filtering a listing split in two is filtering
   * each part, the first part's pages first.
   */
  lemma {:induction false} HtmlEntriesAppend(xs: seq<Entry>, ys: seq<Entry>)
    ensures HtmlEntries(xs + ys) == HtmlEntries(xs) + HtmlEntries(ys)
    decreases |xs|
  {
    if xs == [] {
      assert xs + ys == ys;
    } else {
      assert (xs + ys)[0] == xs[0];
      assert (xs + ys)[1..] == xs[1..] + ys;
      HtmlEntriesAppend(xs[1..], ys);
    }
  }

  /** Page detection ignores case: a path and its lower-cased form agree. */
  lemma IsHTMLIgnoresCase(p: string)
    ensures Entry(p).IsHTML() == Entry(Lower(p)).IsHTML()
  {
    LowerIdempotent(p);
  }

  /** The cases the test suite checks. */
  lemma IsHTMLExamples()
    ensures Entry("/page.htm").IsHTML()
    ensures Entry("/page.HTML").IsHTML()
    ensures !Entry("/style.css").IsHTML()
  {
    assert Lower("/page.htm")[5..] == ".htm";
    assert Lower("/page.HTML")[5..] == ".html";
    assert Lower("/style.css")[6..] == ".css";
  }

  lemma FilenameExample()
    ensures Entry("/docs/guide/intro.htm").Filename() == "intro.htm"
  {
    assert "/docs/guide/intro.htm" == "/docs/guide" + "/" + "intro.htm";
    Paths.LastPathComponentOfChild("/docs/guide", "intro.htm");
  }

  /** An entry whose path is `dir/name` has file name `name`. */
  lemma FilenameIsLastSegment(dir: string, name: string)
    requires name != [] && '/' !in name
    ensures Entry(dir + "/" + name).Filename() == name
  {
    Paths.LastPathComponentOfChild(dir, name);
  }
}
