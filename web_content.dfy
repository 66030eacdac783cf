/**
 * The web view holder (`WebViewStore`, Sources/CHMReader/WebContentView.swift):
 * `setup` creates the web view once, wired to the archive's scheme handler;
 * `navigate(to:)` turns an archive path with an optional `#fragment` into a
 * `chm-internal://content/...` URL and loads it unless the web view already
 * shows that URL.
 */
module WebContent {

  import opened Common
  import opened Strings
  import ChmFile
  import UrlScheme

  const Scheme: string := "chm-internal"
  const Host: string := "content"

  /** A URL as `URLComponents` holds it. */
  datatype Url = Url(scheme: string, host: string, path: string, fragment: Option<string>)

  /** The archive path a URL of ours was made from: its path, and `#fragment` when it has one. */
  function Href(u: Url): string {
    match u.fragment
    case None => u.path
    case Some(f) => u.path + "#" + f
  }

  /**
   * The split at the first `#`: the text before it and the text after it,
   * or the whole path and no fragment when there is no `#`.
   */
  function SplitFragment(path: string): (r: (string, Option<string>))
    ensures '#' !in r.0
    ensures r.1.None? <==> '#' !in path
    ensures r.1.None? ==> r.0 == path
    ensures r.1.Some? ==> path == r.0 + "#" + r.1.value
  {
    var i := IndexOf(path, 0, '#');
    if i == |path| then (path, None)
    else
      assert path == path[..i] + "#" + path[i + 1..];
      (path[..i], Some(path[i + 1..]))
  }

  /**
   * `URLComponents.url`: a URL with a host whose path is neither empty nor
   * rooted at "/" cannot be formed.
   */
  function ComponentsUrl(scheme: string, host: string, path: string, fragment: Option<string>): (r: Option<Url>)
    ensures r.None? <==> host != "" && path != "" && path[0] != '/'
    ensures r.Some? ==> r.value == Url(scheme, host, path, fragment)
  {
    if host != "" && path != "" && path[0] != '/' then None
    else Some(Url(scheme, host, path, fragment))
  }

  /** The URL `navigate(to:)` builds for an archive path. */
  function UrlOf(path: string): (r: Option<Url>)
    ensures r.None? <==> path != "" && path[0] != '/' && path[0] != '#'
    ensures r.Some? ==> r.value.scheme == Scheme && r.value.host == Host && '#' !in r.value.path
    ensures r.Some? ==> Href(r.value) == path
  {
    var (p, f) := SplitFragment(path);
    assert path != "" && path[0] != '#' ==> p != "" && p[0] == path[0];
    ComponentsUrl(Scheme, Host, p, f)
  }

  /** Distinct paths give distinct URLs: the URL determines the path it was made from. */
  lemma UrlOfInjective(p: string, q: string)
    requires UrlOf(p).Some? && UrlOf(p) == UrlOf(q)
    ensures p == q
  {
    calc {
      p;
      Href(UrlOf(p).value);
      Href(UrlOf(q).value);
      q;
    }
  }

  /** The URL `navigate(to:)` loads in a web view showing `current`, or None when it loads nothing. */
  function Navigation(current: Option<Url>, path: string): (load: Option<Url>)
    ensures load.Some? <==> UrlOf(path).Some? && current != UrlOf(path)
    ensures load.Some? ==> load == UrlOf(path)
  {
    match UrlOf(path)
    case None => None
    case Some(u) => if current == Some(u) then None else Some(u)
  }

  /** The web view's URL after `navigate(to:)`. */
  function Shown(current: Option<Url>, path: string): Option<Url> {
    var load := Navigation(current, path);
    if load.Some? then load else current
  }

  /** Navigating twice to the same path loads it at most once. */
  lemma NavigateTwiceLoadsOnce(current: Option<Url>, path: string)
    ensures Navigation(Shown(current, path), path).None?
    ensures Shown(Shown(current, path), path) == Shown(current, path)
  {
  }

  /** Once a page is shown, navigating to any other valid path loads that path. */
  lemma {:induction false} OtherPathLoads(shown: string, path: string)
    requires UrlOf(shown).Some? && UrlOf(path).Some? && shown != path
    ensures Navigation(UrlOf(shown), path) == UrlOf(path)
  {
    if UrlOf(shown) == UrlOf(path) {
      UrlOfInjective(shown, path);
      assert false;
    }
  }

  /**
   * A rooted archive path without fragment, outside the "/content" segment,
   * reaches the scheme handler as itself.
   */
  lemma ServedAsNavigated(path: string, unescape: string -> Option<string>)
    requires HasPrefix(path, "/") && '#' !in path && !UrlScheme.HasContentSegment(path)
    requires unescape(path).None? || unescape(path) == Some(path)
    ensures UrlOf(path).Some?
    ensures UrlScheme.RequestPath(UrlOf(path).value.path, unescape) == path
  {
    UrlScheme.ContentPathKeepsArchivePaths(path);
  }

  /** A `WKWebView`: the archive its scheme handler serves, its current URL and the requests it was given. */
  class WebView {
    const handler: ChmFile.Archive
    var url: Option<Url>
    var loads: seq<Url>
    var allowsBackForwardNavigationGestures: bool

    constructor(handler: ChmFile.Archive)
      ensures this.handler == handler && url.None? && loads == []
      ensures !allowsBackForwardNavigationGestures
    {
      this.handler := handler;
      url := None;
      loads := [];
      allowsBackForwardNavigationGestures := false;
    }

    /** `load(_:)`: the request is issued and the view shows its URL. */
    method Load(u: Url)
      modifies this
      ensures url == Some(u) && loads == old(loads) + [u]
      ensures allowsBackForwardNavigationGestures == old(allowsBackForwardNavigationGestures)
    {
      url := Some(u);
      loads := loads + [u];
    }
  }

  class WebViewStore {
    var webView: WebView?
    /** The archive the installed scheme handler serves. */
    var schemeHandler: Option<ChmFile.Archive>

    constructor()
      ensures webView == null && schemeHandler.None?
    {
      webView := null;
      schemeHandler := None;
    }

    /** `setup(chmFile:)`: only the first call creates the web view. */
    method Setup(chmFile: ChmFile.Archive)
      modifies this
      ensures old(webView) != null ==> webView == old(webView) && schemeHandler == old(schemeHandler)
      ensures old(webView) == null ==>
                webView != null && fresh(webView) && schemeHandler == Some(chmFile) &&
                webView.handler == chmFile && webView.url.None? && webView.loads == [] &&
                webView.allowsBackForwardNavigationGestures
    {
      if webView != null {
        return;
      }
      schemeHandler := Some(chmFile);
      var wv := new WebView(chmFile);
      wv.allowsBackForwardNavigationGestures := true;
      webView := wv;
    }

    /** `navigate(to:)`. */
    method Navigate(path: string)
      modifies webView
      ensures webView != null ==>
                webView.url == Shown(old(webView.url), path) &&
                webView.loads == old(webView.loads) + (match Navigation(old(webView.url), path)
                                                       case None => []
                                                       case Some(u) => [u]) &&
                webView.allowsBackForwardNavigationGestures == old(webView.allowsBackForwardNavigationGestures)
    {
      if webView == null {
        return;
      }
      var wv := webView;
      var componentsPath: string;
      var fragment: Option<string>;
      var hashIndex := IndexOf(path, 0, '#');
      if hashIndex < |path| {
        componentsPath := path[..hashIndex];
        fragment := Some(path[hashIndex + 1..]);
      } else {
        componentsPath := path;
        fragment := None;
      }
      var url := ComponentsUrl(Scheme, Host, componentsPath, fragment);
      assert url == UrlOf(path);
      if url.None? {
        return;
      }
      if wv.url != url {
        wv.Load(url.value);
      }
    }
  }
}
