/**
 * Page-path normalisation of the Markdown-copy button (copy-markdown.js):
 * the browser's `location.pathname` is turned into the path of the page's
 * Markdown source, relative to the raw-content base of the documentation
 * repository.
 */
module PagePath {
  import opened Text

  const REPO_BASE := "https://raw.githubusercontent.com/ComfyDock/comfydock/main/docs/comfydock-docs/docs/"
  const INDEX_HTML := "index.html"
  const ROOT_DOCUMENT := "index.md"
  const MD_EXTENSION := ".md"

  /** The replacement of `/^\/+|\/+$/g` by the empty string: the runs of slashes at both ends go. */
  function StripSlashes(path: string): (r: string)
    ensures r == [] || (r[0] != '/' && r[|r| - 1] != '/')
    ensures PaddedBy(path, r, Slash)
  {
    StripBoth(path, Slash)
  }

  /**
   * The replacement of `/index\.html$/` by the empty string: one trailing
   * `index.html` goes, whatever precedes it.
   */
  function DropIndexHtml(s: string): (r: string)
    ensures EndsWith(s, INDEX_HTML) ==> r + INDEX_HTML == s
    ensures !EndsWith(s, INDEX_HTML) ==> r == s
    ensures r == s[..|r|]
  {
    if EndsWith(s, INDEX_HTML) then s[..|s| - |INDEX_HTML|] else s
  }

  lemma RootDocumentIsMarkdown()
    ensures EndsWith(ROOT_DOCUMENT, MD_EXTENSION) && ROOT_DOCUMENT[0] != '/'
  {
    ConcatEnds("index", MD_EXTENSION, MD_EXTENSION);
    assert "index" + MD_EXTENSION == ROOT_DOCUMENT;
  }

  /** What is left after the slashes and `index.html` are removed does not start with a slash. */
  function Cleaned(pathname: string): (r: string)
    ensures r == [] || r[0] != '/'
  {
    var stripped := StripSlashes(pathname);
    var cleaned := DropIndexHtml(stripped);
    assert cleaned == [] || cleaned[0] == stripped[0];
    cleaned
  }

  /** getCurrentPagePath, with `window.location.pathname` passed in. */
  function CurrentPagePath(pathname: string): (r: string)
    ensures EndsWith(r, MD_EXTENSION)
    ensures r[0] != '/'
  {
    var cleaned := Cleaned(pathname);
    if cleaned == "" then
      RootDocumentIsMarkdown();
      ROOT_DOCUMENT
    else if EndsWith(cleaned, MD_EXTENSION) then cleaned
    else
      ConcatEnds(cleaned, MD_EXTENSION, MD_EXTENSION);
      cleaned + MD_EXTENSION
  }

  /** getRawMarkdownUrl: the raw-content base followed by a relative `.md` path. */
  function RawMarkdownUrl(pathname: string): (r: string)
    ensures StartsWith(r, REPO_BASE) && EndsWith(r, MD_EXTENSION)
    ensures |r| > |REPO_BASE| && r[|REPO_BASE|] != '/'
  {
    var page := CurrentPagePath(pathname);
    ConcatEnds(REPO_BASE, page, MD_EXTENSION);
    REPO_BASE + page
  }

  function Slashes(n: nat): (r: string)
    ensures |r| == n && All(r, Slash)
  {
    if n == 0 then "" else "/" + Slashes(n - 1)
  }

  /** The site root in any spelling (empty, or slashes only) is the root document. */
  lemma RootIsIndex(pathname: string)
    requires All(pathname, Slash)
    ensures CurrentPagePath(pathname) == ROOT_DOCUMENT
  {
    assert StripSlashes(pathname) == "";
  }

  /** Stripping the slashes around a path that neither starts nor ends with one gives that path. */
  lemma StripSlashesAround(before: nat, middle: string, after: nat)
    requires middle != [] && middle[0] != '/' && middle[|middle| - 1] != '/'
    ensures StripSlashes(Slashes(before) + middle + Slashes(after)) == middle
  {
    StripBothAround(Slashes(before), middle, Slashes(after), Slash);
  }

  /** `index.html` between any runs of slashes is the root document too. */
  lemma IndexHtmlIsIndex(before: nat, after: nat)
    ensures CurrentPagePath(Slashes(before) + INDEX_HTML + Slashes(after)) == ROOT_DOCUMENT
  {
    StripSlashesAround(before, INDEX_HTML, after);
    assert DropIndexHtml(INDEX_HTML) == "";
  }

  /** A path that is already a Markdown path, between slashes, comes back unchanged: no `.md.md`. */
  lemma MarkdownPathUnchanged(page: string, before: nat, after: nat)
    requires page != [] && page[0] != '/' && page[|page| - 1] != '/'
    requires EndsWith(page, MD_EXTENSION)
    ensures CurrentPagePath(Slashes(before) + page + Slashes(after)) == page
  {
    StripSlashesAround(before, page, after);
    MarkdownEndsInD(page);
    LastCharRulesOut(page, INDEX_HTML);
  }

  /** Any other page path, between slashes, gets the extension appended. */
  lemma PlainPathGetsExtension(page: string, before: nat, after: nat)
    requires page != [] && page[0] != '/' && page[|page| - 1] != '/'
    requires !EndsWith(page, INDEX_HTML) && !EndsWith(page, MD_EXTENSION)
    ensures CurrentPagePath(Slashes(before) + page + Slashes(after)) == page + MD_EXTENSION
  {
    StripSlashesAround(before, page, after);
  }

  /** A Markdown path with no slash at either end is a fixed point, with or without a leading slash. */
  lemma MarkdownPathFixed(page: string)
    requires page != [] && page[0] != '/' && EndsWith(page, MD_EXTENSION)
    ensures CurrentPagePath("/" + page) == page
    ensures CurrentPagePath(page) == page
  {
    MarkdownEndsInD(page);
    OneLeadingSlash(page);
    MarkdownPathUnchanged(page, 1, 0);
    MarkdownPathUnchanged(page, 0, 0);
  }

  lemma MarkdownEndsInD(page: string)
    requires EndsWith(page, MD_EXTENSION)
    ensures page[|page| - 1] == 'd'
  {
    assert page[|page| - 3..][2] == page[|page| - 1];
  }

  lemma OneLeadingSlash(page: string)
    ensures "/" + page == Slashes(1) + page + Slashes(0)
    ensures page == Slashes(0) + page + Slashes(0)
  {
    assert Slashes(1) == "/";
  }

  /** Normalising the absolute form of a result yields that result again. */
  lemma Idempotent(pathname: string)
    ensures CurrentPagePath("/" + CurrentPagePath(pathname)) == CurrentPagePath(pathname)
    ensures CurrentPagePath(CurrentPagePath(pathname)) == CurrentPagePath(pathname)
  {
    MarkdownPathFixed(CurrentPagePath(pathname));
  }

  /**
   * A trailing `index.html` is dropped after the slashes are stripped and
   * without a boundary check: whatever precedes it, a trailing slash or part of
   * a file name, stays and receives the extension.
   */
  lemma IndexHtmlSuffixDropped(name: string)
    requires name != [] && name[0] != '/' && !EndsWith(name, MD_EXTENSION)
    ensures CurrentPagePath("/" + name + INDEX_HTML) == name + MD_EXTENSION
  {
    var middle := name + INDEX_HTML;
    assert middle[|middle| - 1] == 'l';
    assert "/" + name + INDEX_HTML == Slashes(1) + middle + Slashes(0);
    StripSlashesAround(1, middle, 0);
    assert middle[..|middle| - |INDEX_HTML|] == name;
  }

  /** A section index keeps its slash: `/guide/index.html` gives `guide/.md`. */
  lemma SectionIndexKeepsSlash(dir: string)
    requires dir != [] && dir[0] != '/'
    ensures CurrentPagePath("/" + (dir + "/") + INDEX_HTML) == (dir + "/") + MD_EXTENSION
  {
    LastCharRulesOut(dir + "/", MD_EXTENSION);
    IndexHtmlSuffixDropped(dir + "/");
  }
}
