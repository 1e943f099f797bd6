/**
 * cleanupClipboardText of code-copy-filter.js: the text a code block's copy
 * button should put on the clipboard, without the shell prompt (`gp`) and
 * output (`go`) spans that the syntax highlighter adds. The document is
 * reduced to what the function reads: for each selector that resolves to an
 * element, that element's child nodes in order.
 */
module CodeCopyFilter {
  import opened Wrappers
  import opened Text

  const EXCLUDED_CLASSES: seq<string> := ["gp", "go"]

  /** A child node: an element has a class list, a text node has none. */
  datatype DomNode = DomNode(classList: Option<set<string>>, textContent: string)

  /** `document.querySelector(selector).childNodes`, for the selectors that match an element. */
  type Document = map<string, seq<DomNode>>

  /** `excludedClasses.some(c => node?.classList?.contains(c))`. */
  predicate IsExcluded(n: DomNode)
    ensures n.classList.None? ==> !IsExcluded(n)
    ensures n.classList.Some? ==> (IsExcluded(n) <==> "gp" in n.classList.value || "go" in n.classList.value)
  {
    assert EXCLUDED_CLASSES[0] == "gp" && EXCLUDED_CLASSES[1] == "go";
    n.classList.Some? && exists i :: 0 <= i < |EXCLUDED_CLASSES| && EXCLUDED_CLASSES[i] in n.classList.value
  }

  /** The first `filter`: the nodes that are not excluded, in order. */
  function KeepIncluded(nodes: seq<DomNode>): (r: seq<DomNode>)
    ensures |r| <= |nodes|
    ensures forall n :: n in r <==> n in nodes && !IsExcluded(n)
  {
    if nodes == [] then []
    else if IsExcluded(nodes[0]) then KeepIncluded(nodes[1..])
    else [nodes[0]] + KeepIncluded(nodes[1..])
  }

  /** The `map` to `textContent`. */
  function TextContents(nodes: seq<DomNode>): (r: seq<string>)
    ensures |r| == |nodes|
    ensures forall i :: 0 <= i < |nodes| ==> r[i] == nodes[i].textContent
  {
    if nodes == [] then [] else [nodes[0].textContent] + TextContents(nodes[1..])
  }

  /** The second `filter`: the non-empty strings, in order. */
  function NonEmpty(strs: seq<string>): (r: seq<string>)
    ensures forall s :: s in r <==> s in strs && s != ""
  {
    if strs == [] then []
    else if strs[0] == "" then NonEmpty(strs[1..])
    else [strs[0]] + NonEmpty(strs[1..])
  }

  /** `join("")`. */
  function Join(strs: seq<string>): (r: string)
    ensures |r| == 0 <==> forall i :: 0 <= i < |strs| ==> strs[i] == ""
  {
    if strs == [] then "" else strs[0] + Join(strs[1..])
  }

  /** The text of the code block a reader sees as code: every child's text, in order, except prompts and output. */
  function VisibleText(nodes: seq<DomNode>): string {
    if nodes == [] then ""
    else (if IsExcluded(nodes[0]) then "" else nodes[0].textContent) + VisibleText(nodes[1..])
  }

  /** cleanupClipboardText: "" when the selector matches nothing, otherwise the trimmed pipeline result. */
  function CleanupClipboardText(doc: Document, selector: string): (r: string)
    ensures selector !in doc ==> r == ""
    ensures r == [] || (!IsWhitespace(r[0]) && !IsWhitespace(r[|r| - 1]))
  {
    if selector !in doc then ""
    else Trim(Join(NonEmpty(TextContents(KeepIncluded(doc[selector])))))
  }

  /** Dropping the empty strings before the join does not change the joined text. */
  lemma {:induction false} JoinNonEmpty(strs: seq<string>)
    ensures Join(NonEmpty(strs)) == Join(strs)
  {
    if strs != [] {
      JoinNonEmpty(strs[1..]);
      if strs[0] != "" {
        assert NonEmpty(strs) == [strs[0]] + NonEmpty(strs[1..]);
        assert ([strs[0]] + NonEmpty(strs[1..]))[1..] == NonEmpty(strs[1..]);
      }
    }
  }

  lemma JoinCons(x: string, rest: seq<string>)
    ensures Join([x] + rest) == x + Join(rest)
  {
    assert ([x] + rest)[1..] == rest;
  }

  lemma TextContentsCons(n: DomNode, rest: seq<DomNode>)
    ensures TextContents([n] + rest) == [n.textContent] + TextContents(rest)
  {
    assert ([n] + rest)[1..] == rest;
  }

  /** One step of the pipeline: the first child contributes its text unless it is excluded. */
  lemma JoinKeptStep(nodes: seq<DomNode>)
    requires nodes != []
    ensures Join(TextContents(KeepIncluded(nodes)))
         == (if IsExcluded(nodes[0]) then "" else nodes[0].textContent) + Join(TextContents(KeepIncluded(nodes[1..])))
  {
    var rest := KeepIncluded(nodes[1..]);
    if !IsExcluded(nodes[0]) {
      assert KeepIncluded(nodes) == [nodes[0]] + rest;
      TextContentsCons(nodes[0], rest);
      JoinCons(nodes[0].textContent, TextContents(rest));
    }
  }

  /** Filtering, mapping to text and joining is the visible text in document order. */
  lemma {:induction false} JoinKeptTexts(nodes: seq<DomNode>)
    ensures Join(TextContents(KeepIncluded(nodes))) == VisibleText(nodes)
  {
    if nodes != [] {
      JoinKeptTexts(nodes[1..]);
      JoinKeptStep(nodes);
    }
  }

  /** The result is the trimmed concatenation, in child order, of the text of the children that carry neither `gp` nor `go`. */
  lemma CleanupIsTrimmedVisibleText(doc: Document, selector: string)
    requires selector in doc
    ensures CleanupClipboardText(doc, selector) == Trim(VisibleText(doc[selector]))
  {
    var kept := TextContents(KeepIncluded(doc[selector]));
    JoinNonEmpty(kept);
    JoinKeptTexts(doc[selector]);
  }

  /** A block made of text nodes only is kept whole. */
  lemma {:induction false} AllTextNodesKept(nodes: seq<DomNode>)
    requires forall i :: 0 <= i < |nodes| ==> nodes[i].classList.None?
    ensures KeepIncluded(nodes) == nodes
  {
    if nodes != [] {
      AllTextNodesKept(nodes[1..]);
    }
  }

  /**
   * Children without a class list, the text nodes, are always kept, wherever
   * they stand; a block made of text nodes only is kept whole.
   */
  lemma TextNodesKept(nodes: seq<DomNode>)
    ensures forall i :: 0 <= i < |nodes| && nodes[i].classList.None? ==> nodes[i] in KeepIncluded(nodes)
    ensures (forall i :: 0 <= i < |nodes| ==> nodes[i].classList.None?) ==> KeepIncluded(nodes) == nodes
  {
    if forall i :: 0 <= i < |nodes| ==> nodes[i].classList.None? {
      AllTextNodesKept(nodes);
    }
  }

  /** When every child is a prompt or output span, or there are none, there is nothing to copy. */
  lemma {:induction false} AllExcludedIsEmpty(nodes: seq<DomNode>)
    requires forall i :: 0 <= i < |nodes| ==> IsExcluded(nodes[i])
    ensures VisibleText(nodes) == ""
  {
    if nodes != [] {
      AllExcludedIsEmpty(nodes[1..]);
    }
  }

  lemma AllExcludedCleansToEmpty(doc: Document, selector: string)
    requires selector in doc
    requires forall i :: 0 <= i < |doc[selector]| ==> IsExcluded(doc[selector][i])
    ensures CleanupClipboardText(doc, selector) == ""
  {
    CleanupIsTrimmedVisibleText(doc, selector);
    AllExcludedIsEmpty(doc[selector]);
  }
}
