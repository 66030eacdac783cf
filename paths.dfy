/**
 * The two `NSString` path accessors the viewer uses, `lastPathComponent`
 * and `pathExtension`, over `/`-separated archive paths.
 */
module Paths {

  import opened Strings

  predicate IsSlash(c: char) {
    c == '/'
  }

  /** A path made absolute: `/` is put in front unless it is already there. */
  function Rooted(p: string): (r: string)
    ensures HasPrefix(r, "/")
    ensures HasPrefix(p, "/") ==> r == p
    ensures !HasPrefix(p, "/") ==> r[1..] == p
  {
    if HasPrefix(p, "/") then p
    else
      assert ("/" + p)[1..] == p;
      "/" + p
  }

  /** Position just after the last `c` in `s`, or 0 when `s` has none. */
  function AfterLast(s: string, c: char): (k: nat)
    ensures k <= |s|
    ensures k > 0 ==> s[k - 1] == c
    ensures forall i :: k <= i < |s| ==> s[i] != c
    decreases |s|
  {
    if s == [] then 0
    else if s[|s| - 1] == c then |s|
    else AfterLast(s[..|s| - 1], c)
  }

  /**
   * `lastPathComponent`: trailing slashes are ignored, a path made only of
   * slashes gives "/", and otherwise the text after the last remaining slash.
   */
  function LastPathComponent(p: string): (r: string)
    ensures p == [] ==> r == []
    ensures p != [] && (forall i :: 0 <= i < |p| ==> p[i] == '/') ==> r == "/"
    ensures (exists i :: 0 <= i < |p| && p[i] != '/') ==>
              r != [] && '/' !in r && HasSuffix(TrimEnd(p, IsSlash), r)
  {
    if p == [] then []
    else
      var t := TrimEnd(p, IsSlash);
      if t == [] then "/"
      else
        var r := t[AfterLast(t, '/')..];
        assert forall i :: 0 <= i < |r| ==> r[i] != '/';
        r
  }

  lemma {:induction false} AfterLastAppend(s: string, name: string, c: char)
    requires c !in name
    ensures AfterLast(s + name, c) == AfterLast(s, c)
    decreases |name|
  {
    if name != [] {
      var m := name[..|name| - 1];
      assert (s + name)[..|s + name| - 1] == s + m;
      AfterLastAppend(s, m, c);
    } else {
      assert s + name == s;
    }
  }

  /** The last component of `dir/name` is `name`, whatever `dir` is. */
  lemma LastPathComponentOfChild(dir: string, name: string)
    requires name != [] && '/' !in name
    ensures LastPathComponent(dir + "/" + name) == name
  {
    var p := dir + "/" + name;
    assert p[|p| - 1] == name[|name| - 1];
    assert TrimEnd(p, IsSlash) == p;
    assert (dir + "/") + name == p;
    AfterLastAppend(dir + "/", name, '/');
    assert AfterLast(dir + "/", '/') == |dir| + 1;
  }

  /**
   * `pathExtension`: the text after the last `.` of the last component; none
   * when the component has no `.` or its only candidate `.` is its first character.
   */
  function PathExtension(p: string): (r: string)
    ensures '.' !in r
    ensures r != [] ==> HasSuffix(LastPathComponent(p), "." + r)
  {
    var c := LastPathComponent(p);
    var k := AfterLast(c, '.');
    if k <= 1 then ""
    else
      var r := c[k..];
      assert |c| - |r| - 1 == k - 1 && c[k - 1] == '.';
      assert c[k - 1..] == [c[k - 1]] + c[k..];
      r
  }

  /** The extension of `dir/base.ext` is `ext`. */
  lemma PathExtensionOfName(dir: string, base: string, ext: string)
    requires base != [] && '/' !in base && '/' !in ext && '.' !in ext && ext != []
    ensures PathExtension(dir + "/" + base + "." + ext) == ext
  {
    var name := base + "." + ext;
    assert dir + "/" + base + "." + ext == dir + "/" + name;
    LastPathComponentOfChild(dir, name);
    AfterLastAppend(base + ".", ext, '.');
    assert AfterLast(base + ".", '.') == |base| + 1;
  }
}
