/** `shared/application/urls.py`: the "looks like an HTML page" heuristic and
    the link filter applied to a parsed page. */
module Urls {
  import opened Wrappers
  import opened Strings
  import opened Web

  /** `HTML_EXTENSIONS`: path endings that mark a page. */
  const HtmlExtensions: set<string> := {"/", ".html", ".htm", ".php", ".asp", ".aspx", ".jsp"}

  /** The tag names `extract_urls` searches for. */
  const LinkTags: set<string> := {"a", "link", "script", "img", "iframe", "source"}

  /** The schemes `extract_urls` accepts ("" is a relative link). */
  const LinkSchemes: set<string> := {"http", "https", ""}

  /** `path.split("/")[-1]`: what follows the last '/', or the whole path. */
  function LastSegment(path: string): (seg: string)
    ensures EndsWith(path, seg)
    ensures forall i :: 0 <= i < |seg| ==> seg[i] != '/'
    ensures |seg| < |path| ==> path[|path| - |seg| - 1] == '/'
    decreases |path|
  {
    if path == [] then []
    else if path[|path| - 1] == '/' then []
    else LastSegment(path[..|path| - 1]) + [path[|path| - 1]]
  }

  /** Every '.' of `path` has a '/' somewhere after it. */
  predicate DotsBeforeSlashes(path: string) {
    forall i :: 0 <= i < |path| && path[i] == '.' ==> exists j :: i < j < |path| && path[j] == '/'
  }

  /** A dot in the last segment is exactly a dot with no '/' after it. */
  lemma {:induction false} NoDotInLastSegment(path: string)
    ensures '.' !in LastSegment(path) <==> DotsBeforeSlashes(path)
    decreases |path|
  {
    if path != [] {
      var init, c := path[..|path| - 1], path[|path| - 1];
      assert path == init + [c];
      if c == '/' {
        SlashLast(init);
      } else {
        NoDotInLastSegment(init);
        DotsAppend(init, c);
      }
    }
  }

  /** A path ending in '/' has a '/' after each of its dots. */
  lemma SlashLast(init: string)
    ensures DotsBeforeSlashes(init + ['/'])
  {
    var path := init + ['/'];
    forall i | 0 <= i < |path| && path[i] == '.'
      ensures exists j :: i < j < |path| && path[j] == '/'
    {
      assert path[|path| - 1] == '/';
    }
  }

  /** Appending a character other than '/' keeps the property exactly when
      the character is not a dot. */
  lemma DotsAppend(init: string, c: char)
    requires c != '/'
    ensures DotsBeforeSlashes(init + [c]) <==> DotsBeforeSlashes(init) && c != '.'
  {
    var path := init + [c];
    assert forall i :: 0 <= i < |init| ==> path[i] == init[i];
    if DotsBeforeSlashes(path) {
      forall i | 0 <= i < |init| && init[i] == '.'
        ensures exists j :: i < j < |init| && init[j] == '/'
      {
        var j :| i < j < |path| && path[j] == '/';
      }
      assert path[|init|] == c;
    }
    if DotsBeforeSlashes(init) && c != '.' {
      forall i | 0 <= i < |path| && path[i] == '.'
        ensures exists j :: i < j < |path| && path[j] == '/'
      {
        var j :| i < j < |init| && init[j] == '/';
        assert path[j] == '/';
      }
    }
  }

  /** The heuristic on an already lower-cased path. */
  predicate IsHtmlPath(path: string) {
    if exists ext :: ext in HtmlExtensions && EndsWith(path, ext) then true
    else if '.' !in LastSegment(path) then true
    else false
  }

  /** `is_html_url(url)`. */
  predicate IsHtmlUrl(lib: UrlLib, url: string) {
    IsHtmlPath(Lower(lib.parse(url).path))
  }

  predicate HasPageEnding(p: string) {
    || EndsWith(p, "/") || EndsWith(p, ".html") || EndsWith(p, ".htm")
    || EndsWith(p, ".php") || EndsWith(p, ".asp") || EndsWith(p, ".aspx")
    || EndsWith(p, ".jsp")
  }

  lemma ExtensionMatchIff(p: string)
    ensures (exists ext :: ext in HtmlExtensions && EndsWith(p, ext)) <==> HasPageEnding(p)
  {
    if HasPageEnding(p) {
      if EndsWith(p, "/") { assert "/" in HtmlExtensions; }
      else if EndsWith(p, ".html") { assert ".html" in HtmlExtensions; }
      else if EndsWith(p, ".htm") { assert ".htm" in HtmlExtensions; }
      else if EndsWith(p, ".php") { assert ".php" in HtmlExtensions; }
      else if EndsWith(p, ".asp") { assert ".asp" in HtmlExtensions; }
      else if EndsWith(p, ".aspx") { assert ".aspx" in HtmlExtensions; }
      else { assert ".jsp" in HtmlExtensions; }
    }
  }

  /** Which paths are pages, whatever the case of their letters: exactly
      those that end in '/' or in one of the page extensions, and those with
      no dot after their last '/'. */
  lemma IsHtmlPathIff(path: string)
    ensures IsHtmlPath(Lower(path)) <==>
            HasPageEnding(Lower(path)) || DotsBeforeSlashes(path)
  {
    var p := Lower(path);
    ExtensionMatchIff(p);
    NoDotInLastSegment(p);
    assert forall i :: 0 <= i < |path| ==> (p[i] == '.' <==> path[i] == '.') && (p[i] == '/' <==> path[i] == '/');
  }

  /** The heuristic does not see the case of the letters: paths that
      differ only in case are classified alike. */
  lemma IsHtmlPathIgnoresCase(p: string, q: string)
    requires SameIgnoringCase(p, q)
    ensures IsHtmlPath(Lower(p)) == IsHtmlPath(Lower(q))
  {
    LowerSameIffSameIgnoringCase(p, q);
  }

  /** An upper-case ending counts: a path ending in ".HTML" is a page. */
  lemma UpperCaseEndingIsPage(path: string)
    requires EndsWith(path, ".HTML")
    ensures IsHtmlPath(Lower(path))
  {
    var p := Lower(path);
    var n := |path|;
    assert p[n - 5..] == ".html" by {
      forall i | n - 5 <= i < n ensures p[i] == ".html"[i - (n - 5)] {
        assert path[i] == ".HTML"[i - (n - 5)];
      }
    }
    IsHtmlPathIff(path);
  }

  /** `tag.get("href") or tag.get("src")`, with "" for a missing value. */
  function Link(tag: Tag): string {
    if tag.href.Some? && tag.href.value != "" then tag.href.value
    else if tag.src.Some? then tag.src.value
    else ""
  }

  /** What one tag contributes to `extract_urls`: its unescaped link when the
      tag is one of the searched kinds, the link is non-empty, and the
      unescaped link has an accepted scheme and looks like a page. */
  function Kept(lib: UrlLib, tag: Tag): Option<string> {
    if tag.name !in LinkTags then None
    else
      var attr := Link(tag);
      if attr == "" then None
      else
        var u := lib.unescape(attr);
        if lib.parse(u).scheme in LinkSchemes && IsHtmlUrl(lib, u) then Some(u) else None
  }

  /** The set `extract_urls` builds from the tags, in document order. */
  function Extracted(lib: UrlLib, tags: seq<Tag>): set<string>
    decreases |tags|
  {
    if tags == [] then {}
    else
      var last := Kept(lib, tags[|tags| - 1]);
      Extracted(lib, tags[..|tags| - 1]) + (if last.Some? then {last.value} else {})
  }

  /** `extract_urls(content)` on the parsed content. */
  method ExtractUrls(lib: UrlLib, tags: seq<Tag>) returns (urls: set<string>)
    ensures urls == Extracted(lib, tags)
  {
    urls := {};
    for i := 0 to |tags|
      invariant urls == Extracted(lib, tags[..i])
    {
      assert tags[..i + 1][..i] == tags[..i];
      var kept := Kept(lib, tags[i]);
      if kept.Some? {
        urls := urls + {kept.value};
      }
    }
    assert tags[..|tags|] == tags;
  }

  /** A string is extracted exactly when some tag contributes it. */
  lemma {:induction false} ExtractedIff(lib: UrlLib, tags: seq<Tag>, u: string)
    ensures u in Extracted(lib, tags) <==> exists i :: 0 <= i < |tags| && Kept(lib, tags[i]) == Some(u)
    decreases |tags|
  {
    if tags != [] {
      var init := tags[..|tags| - 1];
      ExtractedIff(lib, init, u);
      assert forall i :: 0 <= i < |init| ==> init[i] == tags[i];
    }
  }

  /** Every extracted link has an http, https or empty scheme, looks like a
      page, and is the unescaped href (or, failing that, src) of one of the
      searched tags: mailto, ftp and javascript links and assets never are. */
  lemma ExtractedAreNavigable(lib: UrlLib, tags: seq<Tag>, u: string)
    requires u in Extracted(lib, tags)
    ensures lib.parse(u).scheme in LinkSchemes && IsHtmlUrl(lib, u)
    ensures exists i :: 0 <= i < |tags| && tags[i].name in LinkTags && Link(tags[i]) != "" && u == lib.unescape(Link(tags[i]))
  {
    ExtractedIff(lib, tags, u);
    var i :| 0 <= i < |tags| && Kept(lib, tags[i]) == Some(u);
  }

  /** A non-empty href wins: the tag's src is then never looked at. */
  lemma HrefPreferred(lib: UrlLib, tag: Tag)
    requires tag.href.Some? && tag.href.value != ""
    ensures Kept(lib, tag) == None || Kept(lib, tag) == Some(lib.unescape(tag.href.value))
  {
  }
}
