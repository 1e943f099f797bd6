# Copy-page and code-copy scripts of the ComfyGit documentation site, in Dafny

The documentation site (MkDocs Material) ships two browser scripts:

- `copy-markdown.js` adds a "Copy page" button next to the page title. A click
  turns the page's `location.pathname` into the URL of its raw Markdown source
  in the documentation repository, fetches it through a sessionStorage cache,
  writes it to the clipboard, and drives the button's icon and `disabled` flag.
- `code-copy-filter.js` precomputes, for every code block's copy button when it
  first scrolls into view, the text to copy: the code without the shell prompt
  (`gp`) and output (`go`) spans.

This project models the logic inside that browser glue and proves what it
promises:

| file | module | what |
|---|---|---|
| `wrappers.dfy` | `Wrappers` | `Option`, `Result` |
| `text.dfy` | `Text` | prefix/suffix tests, stripping the runs of a character class from both ends (shared by the slash-stripping regular expression and `trim`), ECMAScript whitespace and `trim` |
| `page_path.dfy` | `PagePath` | `getCurrentPagePath`, `getRawMarkdownUrl` as functions of the pathname |
| `markdown_cache.dfy` | `MarkdownCache` | the sessionStorage cache of `fetchMarkdown`: a `SessionStorage` class, the method `FetchMarkdown`, and the function `Fetch` it is proved against |
| `copy_button.dfy` | `CopyButton` | `handleCopyClick` as a state machine over click, fetch settled, clipboard settled and reset timer; the class `CopyMarkdownButton` updates icon and `disabled` in place |
| `button_injection.dfy` | `ButtonInjection` | the decisions of `injectButton` over an abstract page; the class `Document` |
| `code_copy_filter.dfy` | `CodeCopyFilter` | `cleanupClipboardText`, its filter/map/filter/join/trim pipeline, and a direct definition of the visible text it is proved equal to |
| `lazy_copy_text.dfy` | `LazyCopyText` | the IntersectionObserver callback of `setCopyText`, a loop that sets each visible button's `clipboardText` attribute at most once |

Behaviour of the code that the model keeps on purpose:

- Slashes are stripped before `index.html` is dropped, and the `index.html`
  match has no boundary: `/guide/index.html` becomes `guide/.md`
  (`SectionIndexKeepsSlash`) and `/myindex.html` becomes `my.md`
  (`IndexHtmlSuffixDropped`).
- A cached empty string is falsy, so it is a cache miss and the page is fetched
  again (`EmptyEntryIsMiss`).
- On failure the button returns to the original icon and is re-enabled at once;
  only the success path waits for the 1500 ms timer. There is no separate error
  icon.
- `injectButton` checks for the heading before it checks for an existing
  button, so a missing heading schedules a retry even when a button exists; a
  heading that is already wrapped but has no button gets no button.
- An attribute once set, even to `""`, is never recomputed.

The model follows the code also where a natural reading of the intent would
differ: the error path does not wait for a delay before reverting, and the
clipboard fallback does not remove its textarea when `execCommand` throws
(there is no `finally`), so no such guarantee is claimed.

## Model

| member | source | states |
|---|---|---|
| `Text.IsWhitespace` | comfygit/javascripts/code-copy-filter.js:32 | the characters `trim` removes: in ASCII exactly tab, line feed, vertical tab, form feed, carriage return and space, and none beyond the Basic Multilingual Plane |
| `Text.StripBoth` | comfygit/javascripts/code-copy-filter.js:32 | the input is the result padded on both sides by characters of the class only, and the result neither starts nor ends with one; `Trim` and `StripSlashes` are its two instances |
| `Text.Trim` | comfygit/javascripts/code-copy-filter.js:32 | the input is the result padded on both sides by ECMAScript whitespace only, and the result neither starts nor ends with whitespace |
| `Text.TrimIdempotent` | comfygit/javascripts/code-copy-filter.js:32 | trimming a trimmed string changes nothing |
| `PagePath.StripSlashes` | comfygit/javascripts/copy-markdown.js:11 | the path is the result between two runs of slashes, and the result neither starts nor ends with a slash |
| `PagePath.DropIndexHtml` | comfygit/javascripts/copy-markdown.js:11 | a trailing `index.html` is removed once and nothing else; the result is a prefix of the input |
| `PagePath.Cleaned` | comfygit/javascripts/copy-markdown.js:11 | the cleaned path is empty or does not start with a slash |
| `PagePath.CurrentPagePath` | comfygit/javascripts/copy-markdown.js:8-20 | for every pathname the page path ends with `.md` and does not start with `/` |
| `PagePath.RawMarkdownUrl` | comfygit/javascripts/copy-markdown.js:22-24 | the URL is `REPO_BASE` followed by a non-empty path that does not start with `/` and ends with `.md` |
| `PagePath.RootIsIndex` | comfygit/javascripts/copy-markdown.js:11-16 | the empty path and every all-slash path map to `index.md` |
| `PagePath.IndexHtmlIsIndex` | comfygit/javascripts/copy-markdown.js:11-16 | `index.html` between any runs of slashes (`/index.html`, `/index.html/`) maps to `index.md` |
| `PagePath.MarkdownPathUnchanged` | comfygit/javascripts/copy-markdown.js:11-19 | a path already ending in `.md`, between any slashes, comes back unchanged, never `.md.md` |
| `PagePath.PlainPathGetsExtension` | comfygit/javascripts/copy-markdown.js:11-19 | a non-empty path that ends neither in `.md` nor in `index.html` and has no slash at either end comes back, between any runs of slashes, with `.md` appended |
| `PagePath.MarkdownPathFixed` | comfygit/javascripts/copy-markdown.js:11-19 | a `.md` path not starting with `/` is a fixed point with or without a leading `/` |
| `PagePath.Idempotent` | comfygit/javascripts/copy-markdown.js:11-19 | feeding a result back, with or without a leading `/`, yields the same result |
| `PagePath.IndexHtmlSuffixDropped` | comfygit/javascripts/copy-markdown.js:11-19 | for a non-empty name that does not start with `/` and does not end in `.md`, `/` + name + `index.html` gives name + `.md`, with no boundary check (`/myindex.html` gives `my.md`) |
| `PagePath.SectionIndexKeepsSlash` | comfygit/javascripts/copy-markdown.js:11-19 | `/dir/index.html` gives `dir/.md`: the slash before `index.html` survives |
| `MarkdownCache.CacheKey` | comfygit/javascripts/copy-markdown.js:27 | the key is `md_cache_` followed by the url, so the url can be read back from its key and two urls never share an entry |
| `MarkdownCache.IsHit` | comfygit/javascripts/copy-markdown.js:27-31 | the cache answers exactly when a non-empty value is stored under the url's key: a missing entry (null) and an empty one are both falsy |
| `MarkdownCache.Fetch` | comfygit/javascripts/copy-markdown.js:26-43 | the network is used exactly on a miss; whatever text is returned is afterwards stored under the url's key; a throw leaves the storage unchanged |
| `MarkdownCache.CacheHit` | comfygit/javascripts/copy-markdown.js:27-33 | a non-empty entry under `md_cache_` + url is returned as is, without a request and without a storage change |
| `MarkdownCache.EmptyEntryIsMiss` | comfygit/javascripts/copy-markdown.js:30-33 | an empty entry is a miss: the network is used and the result is that of an empty cache |
| `MarkdownCache.MissFailureKeepsStorage` | comfygit/javascripts/copy-markdown.js:35-38 | on a miss, a failed request or a non-ok status throws and leaves the storage unchanged |
| `MarkdownCache.MissSuccessStoresBody` | comfygit/javascripts/copy-markdown.js:35-42 | on a miss with an ok status the body is returned and stored under exactly the url's key; every other key is untouched |
| `MarkdownCache.FetchChangesOnlyItsKey` | comfygit/javascripts/copy-markdown.js:26-43 | a call adds at most the url's key and never changes another key or a non-empty entry |
| `MarkdownCache.NonEmptyEntriesPersist` | comfygit/javascripts/copy-markdown.js:26-43 | a non-empty entry survives any series of calls unchanged |
| `MarkdownCache.FetchedOnce` | comfygit/javascripts/copy-markdown.js:26-43 | after a successful fetch with a non-empty body, a later call for the same url, after any other calls, returns that body without a request |
| `MarkdownCache.SessionStorage.GetItem` | comfygit/javascripts/copy-markdown.js:30 | returns the stored value, or None (null) for an absent key |
| `MarkdownCache.SessionStorage.SetItem` | comfygit/javascripts/copy-markdown.js:41 | the storage afterwards is the old one with the key set to the value |
| `MarkdownCache.FetchMarkdown` | comfygit/javascripts/copy-markdown.js:26-43 | the returned value or error, the new storage and whether the network was used are those of `Fetch` on the old storage |
| `CopyButton.Step` | comfygit/javascripts/copy-markdown.js:74-99 | a toast is shown exactly when a fetch fails or a clipboard write settles, and it is the success or the failure toast; only an accepted click captures the icon; the disabled flag changes only on a click or on an event that ends the handler |
| `CopyButton.StepConsistent` | comfygit/javascripts/copy-markdown.js:74-99 | every event keeps the button invariant: disabled exactly while a handler is pending, original icon when ready, spinner while fetching or copying, check mark while the reset timer runs |
| `CopyButton.RunConsistent` | comfygit/javascripts/copy-markdown.js:74-99 | the invariant holds after any series of events |
| `CopyButton.ClickWhileDisabledIgnored` | comfygit/javascripts/copy-markdown.js:79 | a click on a disabled button changes nothing, so no second handler starts |
| `CopyButton.ClickStartsHandler` | comfygit/javascripts/copy-markdown.js:75-80 | a click on an enabled button disables it, shows the spinner and captures the original icon |
| `CopyButton.FailureRestoresAtOnce` | comfygit/javascripts/copy-markdown.js:93-98 | a failed fetch or clipboard write restores the original icon and re-enables the button at once, with the error toast |
| `CopyButton.SuccessPath` | comfygit/javascripts/copy-markdown.js:79-92 | click, good fetch and good copy leave the check mark on a disabled button with the success toast; the reset timer then restores the initial button |
| `CopyButton.DisabledUntilReleased` | comfygit/javascripts/copy-markdown.js:79-98 | once a handler is pending the button stays disabled through any events until a failure or the reset timer |
| `CopyButton.CopyMarkdownButton.constructor` | comfygit/javascripts/copy-markdown.js:101-116 | a new button shows the original icon and is enabled |
| `CopyButton.CopyMarkdownButton.Click` | comfygit/javascripts/copy-markdown.js:74-80 | the new icon, flag and phase are those of `Step` on a click |
| `CopyButton.CopyMarkdownButton.FetchSettled` | comfygit/javascripts/copy-markdown.js:83-98 | the new state and toast are those of `Step` on the fetch outcome |
| `CopyButton.CopyMarkdownButton.ClipboardSettled` | comfygit/javascripts/copy-markdown.js:84-98 | the new state and toast are those of `Step` on the clipboard outcome |
| `CopyButton.CopyMarkdownButton.ResetTimerFired` | comfygit/javascripts/copy-markdown.js:89-92 | the new state is that of `Step` on the timer |
| `CopyButton.CopyMarkdownButton.Restore` | comfygit/javascripts/copy-markdown.js:93-98 | restores the captured icon, re-enables and yields the error toast |
| `CopyButton.CompleteFetch` | comfygit/javascripts/copy-markdown.js:82-83 | while a handler is fetching, the page's raw URL goes through the cache; the storage and the button afterwards are those of `Fetch` and of `Step` on its outcome |
| `ButtonInjection.Inject` | comfygit/javascripts/copy-markdown.js:118-141 | the heading and an existing wrapper are never removed or created by the call, a retry is scheduled exactly when the heading is missing, and at most one button is added, to a page that had none |
| `ButtonInjection.MissingHeadingRetries` | comfygit/javascripts/copy-markdown.js:120-124 | without a heading only a retry is scheduled, even if a button exists |
| `ButtonInjection.ExistingButtonNoChange` | comfygit/javascripts/copy-markdown.js:127-129 | with a heading and an existing button nothing changes |
| `ButtonInjection.WrappedHeadingGetsNothing` | comfygit/javascripts/copy-markdown.js:132-140 | an already wrapped heading without a button gets nothing |
| `ButtonInjection.AddsButtonExactly` | comfygit/javascripts/copy-markdown.js:118-141 | a button is added if and only if there is a heading, no button and no wrapper, and then the page has one button in a wrapper |
| `ButtonInjection.InjectIdempotent` | comfygit/javascripts/copy-markdown.js:118-141 | with a heading a second call changes nothing |
| `ButtonInjection.NeverSecondButton` | comfygit/javascripts/copy-markdown.js:118-141 | any number of calls on a page with at most one button leaves at most one button |
| `ButtonInjection.Document.InjectButton` | comfygit/javascripts/copy-markdown.js:118-141 | the new page state is `Inject` of the old one |
| `CodeCopyFilter.IsExcluded` | comfygit/javascripts/code-copy-filter.js:25-27 | a text node (no class list) is never excluded; an element is excluded exactly when its classes include `gp` or `go` |
| `CodeCopyFilter.KeepIncluded` | comfygit/javascripts/code-copy-filter.js:22-28 | a node is kept if and only if it is a child that carries neither `gp` nor `go` |
| `CodeCopyFilter.TextContents` | comfygit/javascripts/code-copy-filter.js:29 | one string per node, in order, each the node's `textContent` |
| `CodeCopyFilter.NonEmpty` | comfygit/javascripts/code-copy-filter.js:30 | a string is kept if and only if it is in the input and not empty |
| `CodeCopyFilter.Join` | comfygit/javascripts/code-copy-filter.js:32 | the joined text is empty exactly when every piece is empty |
| `CodeCopyFilter.CleanupClipboardText` | comfygit/javascripts/code-copy-filter.js:15-33 | an unmatched selector gives the empty string; the result never starts or ends with whitespace |
| `CodeCopyFilter.JoinNonEmpty` | comfygit/javascripts/code-copy-filter.js:30-32 | dropping empty strings before the join does not change the joined text |
| `CodeCopyFilter.JoinKeptTexts` | comfygit/javascripts/code-copy-filter.js:22-32 | filtering, taking the text and joining gives the text of the non-excluded children in child order |
| `CodeCopyFilter.CleanupIsTrimmedVisibleText` | comfygit/javascripts/code-copy-filter.js:22-32 | the result is the trimmed concatenation, in child order, of the text of the children with neither `gp` nor `go` |
| `CodeCopyFilter.TextNodesKept` | comfygit/javascripts/code-copy-filter.js:23-28 | every child without a class list, wherever it stands among the others, is kept; a block of such children only is kept whole |
| `CodeCopyFilter.AllExcludedIsEmpty` | comfygit/javascripts/code-copy-filter.js:22-32 | children that all carry `gp` or `go`, or no children, have no visible text |
| `CodeCopyFilter.AllExcludedCleansToEmpty` | comfygit/javascripts/code-copy-filter.js:22-32 | then the cleaned text is the empty string |
| `LazyCopyText.ShouldSet` | comfygit/javascripts/code-copy-filter.js:53-56 | a button whose attribute is already set, even to the empty string, and a button out of view both fail the test |
| `LazyCopyText.ApplyEntry` | comfygit/javascripts/code-copy-filter.js:53-59 | one entry adds an attribute exactly for a visible button without one, holding its cleaned text, and changes no attribute already set |
| `LazyCopyText.ApplyEntries` | comfygit/javascripts/code-copy-filter.js:50-61 | after a batch every previously set attribute is unchanged, every new one belongs to a button visible in the batch and holds its cleaned text, and every visible button has one |
| `LazyCopyText.ComputedAtMostOnce` | comfygit/javascripts/code-copy-filter.js:53-59 | the buttons whose text a batch computes are all unpatched before and pairwise distinct |
| `LazyCopyText.NewAttributesAreComputed` | comfygit/javascripts/code-copy-filter.js:50-61 | the attributes after a batch are the old ones plus exactly those of the computed buttons |
| `LazyCopyText.SetOnceAcrossBatches` | comfygit/javascripts/code-copy-filter.js:53-59 | however many batches follow, a set attribute keeps its first value |
| `LazyCopyText.CopyTextAttributes.OnIntersection` | comfygit/javascripts/code-copy-filter.js:50-62 | the loop over the entries leaves exactly the attributes `ApplyEntries` gives |

## Left out

- `copyToClipboard` (copy-markdown.js:45-59): the Clipboard API, `execCommand` and the temporary textarea are browser calls; their outcome enters the button as the `copied` flag of `ClipboardSettled`.
- `showNotification` (copy-markdown.js:61-72): the toast element and its 10, 2500 and 300 ms timers are UI; the model keeps only the message and the error flag passed to it.
- The network: `fetch` and `response.text()` are I/O; the response they would produce is a parameter (`Response`), and `ok` is a status from 200 to 299.
- `sessionStorage.setItem` throwing (for instance when the storage quota is exceeded) is not modelled.
- `init` and its MutationObserver, the `document$` / `DOMContentLoaded` wiring of both scripts, the construction of the IntersectionObserver and the `observe` calls, and the `querySelectorAll` that selects the copy buttons: event plumbing. A scheduled retry of `injectButton` is a counter; running it is another call of `Inject`.
- CSS selector matching: `querySelector` is a lookup in a map from selector to the matched element's child nodes; an invalid selector, which would throw, is not modelled.
- The SVG and HTML markup of the button and its icons: icons are an enumeration.
- `console.error` logging.
- Time: the 1500 ms reset and the 100 ms retry are events, not durations.
- Strings are sequences of Unicode scalar values, not UTF-16 code units; all the characters that `trim` removes lie in the Basic Multilingual Plane, so trimming is unaffected.
- CopyButton.Step: the fetch and clipboard outcomes are booleans, so the model does not state that the clipboard receives exactly the fetched text.
- LazyCopyText: a button is identified by its value (an id and its target selector), not by object identity.
