# GitHub image viewer — verified model of the userscript core

The userscript lets a visitor of a GitHub page click an image inside a README
(and, in the latest revision, inside an issue, pull request or discussion) to
see it enlarged in an overlay, the "portal", without leaving the page. Three
revisions of the script are covered:

- `gh-image.user.js`, the earliest: only its image filter (lines 17–39; the
  file ends in a stray `};` and does not parse as a whole).
- `github-image-preview.user.js`: the filter, the raw-URL choice, the portal
  and the rewrite of the README navbar's `style` attribute.
- `github-image-viewer.user.js`, the latest: a wider filter, the portal, the
  choice between README and discussion, and the re-scan on in-page
  navigation.

What the model contains, module by module:

- `Text` (text.dfy): `String.prototype.includes` and the JavaScript line
  terminators (`\n`, `\r`, U+2028, U+2029) that a regular-expression `.`
  refuses.
- `LinkPattern` (link_pattern.dfy): both link patterns as one parameterised
  matcher. `BlobImage` is `/blob/.*\.(png|jpe?g)$` (earliest and preview
  revisions), `BlobOrRawImage` is `/(blob|raw)/.*\.(png|jpe?g|gif)(\?.*)?$`
  (latest revision). The matcher is written as an unanchored search the way
  `String.prototype.match` runs it (`Test`), and separately as a declarative
  statement of what a match is (`Matches`); the two are proved equal on every
  string. The extension test is case-sensitive and `.` never crosses a line
  terminator.
- `Collector` (collector.dfy): the records the filter reads (an image, its
  parent link's raw `href` attribute, the resolved `href`, the first child's
  `src`), the filter callback `IsRepoImageLink` and `FilterRepoImageElements`,
  proved to be the order-preserving selection of exactly the accepted images.
- `Overlay` (overlay.dfy): `getRawImageUrl`; the portal as a class with a
  visibility flag and the container's children, whose methods are
  `togglePortal`, `addImageToPortal`, `closeOnClick` and the image `onClick`
  handler; and `setOnClickOnImageEvent` as a loop registering one listener
  per kept image. The portal code of the preview revision
  (github-image-preview.user.js:65-196) is the same as the latest revision's
  and is modelled by the same class.
- `Viewer` (viewer.dfy): the latest revision's `main` (README before
  discussion, nothing on an inactive page) and the mutation-observer callback
  with its remembered `lastUrl`.
- `NavbarStyle` (navbar.dfy): `removeReadmeNavbarZindex`, i.e.
  `style.replace(/z-.*;/, '')`: the first match only, starting at the
  leftmost `z-` that has a `;` after it on the same line, and ending at the
  last such `;` (greedy). Because of the greedy `.*`, declarations that
  follow the z-index on the same line are removed too
  (`GreedyRemovesThroughLastSemicolon`).

Behaviour of the code that a reader might not expect, modelled as written:

- A link ending in `.svg` is not always refused: the latest pattern accepts a
  query string after the extension, so `…/blob/a.png?v=.svg` is accepted.
  `UpperCaseAndSvgRefused` states the refusal for links without `?`.
- A re-scan registers the listener again on an already wired link:
  `SetOnClickOnImageEvent` and `PageObserver.Callback` log one more
  `addEventListener` call per kept image on every re-scan.
- The host test is a substring test: `githubusercontent.com` may occur
  anywhere in the link, not only as its host.

## Model

| member | source | states |
|---|---|---|
| `Text.Includes` | github-image-viewer.user.js:80 | `includes` is true exactly when the searched text occurs at some index of the link |
| `LinkPattern.Test` | github-image-viewer.user.js:81 | the `link.match(...)` search (also gh-image.user.js:36 and github-image-preview.user.js:60); what it accepts is stated by `LinkPattern.TestCorrect` |
| `LinkPattern.TestCorrect` | github-image-viewer.user.js:81 | the unanchored search succeeds exactly on the strings that contain a match: a directory marker, a run without line terminators, an extension, then the end of the string or (later pattern) `?` and a one-line query |
| `LinkPattern.SearchFromSound` | github-image-viewer.user.js:81 | when the search from position `i` succeeds, some match span starts at or after `i` |
| `LinkPattern.SearchFromComplete` | github-image-viewer.user.js:81 | a match span starting at or after `i` makes the search from `i` succeed |
| `LinkPattern.MatchesAtSound` | github-image-viewer.user.js:81 | when the pattern matches at a fixed start, a match span (marker, run, extension, tail) starts there |
| `LinkPattern.MatchesAtComplete` | github-image-viewer.user.js:81 | every match span starting at a position makes the pattern match there |
| `LinkPattern.RunThenExtensionSound` | github-image-viewer.user.js:81 | when `.*` followed by an extension succeeds from `k`, there is a one-line run from `k` ending at an extension whose tail matches |
| `LinkPattern.RunThenExtensionComplete` | github-image-viewer.user.js:81 | every such run and extension is found by the backtracking `.*` |
| `LinkPattern.MatchNeedsDirAndSuffix` | github-image-viewer.user.js:81 | a link either pattern accepts contains one of its directory markers, and without a `?` ends in one of its extensions |
| `LinkPattern.MatchNeedsSuffix` | gh-image.user.js:36 | a pattern without the optional query accepts only links ending in one of its extensions |
| `LinkPattern.SpanOfParts` | github-image-viewer.user.js:81 | a link assembled from any prefix, a directory marker, a one-line path, an extension and an admissible tail is accepted |
| `LinkPattern.BlobImageNeedsBlobAndSuffix` | gh-image.user.js:36 | a link the earliest pattern accepts contains `/blob/` and ends in `.png`, `.jpg` or `.jpeg`, so `/raw/` links, `.gif` and query-suffixed links are refused |
| `LinkPattern.BlobImageAccepts` | github-image-preview.user.js:60 | every `<anything>/blob/<one line>` followed by `.png`, `.jpg` or `.jpeg` at the end is accepted |
| `LinkPattern.BlobOrRawImageNeedsDirAndSuffix` | github-image-viewer.user.js:81 | a link the latest pattern accepts contains `/blob/` or `/raw/`, and without a `?` it ends in `.png`, `.jpg`, `.jpeg` or `.gif` |
| `LinkPattern.BlobOrRawImageAccepts` | github-image-viewer.user.js:81 | every `<anything>/blob/` or `/raw/`, one-line path, one of the four extensions and an optional one-line `?` query is accepted |
| `LinkPattern.BlobImageImpliesBlobOrRawImage` | github-image-viewer.user.js:81 | the latest pattern accepts every link the earlier pattern accepted |
| `LinkPattern.UpperCaseAndSvgRefused` | github-image-viewer.user.js:80-81 | links ending in `.PNG` or `.svg` are refused by the earlier pattern, and by the latest one when they contain no `?` |
| `LinkPattern.MatchLiesOnLastLine` | github-image-viewer.user.js:81 | an accepted link has a directory marker from which everything to the end lies on one line |
| `Collector.IsRepoImageLink` | github-image-viewer.user.js:76-83 | the filter callback; what it keeps is stated by `Collector.IsRepoImageLinkSpec` |
| `Collector.IsRepoImageLinkSpec` | github-image-viewer.user.js:77-82 | a link is kept exactly when it is present, not empty, and mentions `githubusercontent.com` or contains a pattern match |
| `Collector.IsRepoImageLinkWidened` | github-image-preview.user.js:56-61 | every link the preview revision keeps is kept by the latest revision |
| `Collector.FilterRepoImageElements` | gh-image.user.js:30-38 | the result is no longer than the input and holds exactly the input images whose parent link is kept |
| `Collector.KeptIndicesMembers` | github-image-viewer.user.js:76-83 | an index from `lo` on is listed exactly when the image there passes the link test |
| `Collector.FilterPicksAt` | github-image-viewer.user.js:76-83 | the filter of the images from `lo` on is, position by position, the images at the listed indices |
| `Collector.FilterSelectsExactly` | github-image-viewer.user.js:75-84 | the result is the input's kept images in their original order, each once: an image is selected exactly when its link is kept |
| `Collector.FilterIdempotent` | github-image-preview.user.js:54-62 | filtering the filtered list returns it unchanged |
| `Collector.FilterAppend` | github-image-viewer.user.js:76 | the filter of a concatenation is the concatenation of the filters |
| `Collector.FilterRevisionsNested` | gh-image.user.js:30-38 | the earlier revision's selection is the latest revision's selection filtered again by the earlier test |
| `Overlay.GetRawImageUrl` | github-image-viewer.user.js:188-194 | a resolved link containing `githubusercontent.com` is returned unchanged; otherwise the first child's `src` is returned |
| `Overlay.Portal.constructor` | github-image-viewer.user.js:91-114 | a new portal is hidden and its container is empty |
| `Overlay.Portal.TogglePortal` | github-image-viewer.user.js:159-163 | the portal becomes visible or hidden as asked, and the container content stays |
| `Overlay.Portal.AddImageToPortal` | github-image-viewer.user.js:170-179 | the container afterwards holds exactly one image of the given source; visibility is unchanged |
| `Overlay.Portal.CloseOnClick` | github-image-viewer.user.js:92-96 | a click whose target is the container hides the portal; any other target changes nothing; the content is never touched |
| `Overlay.Portal.OnClick` | github-image-viewer.user.js:205-213 | after an image click the container holds exactly the image at the raw URL and the portal is visible |
| `Overlay.OpenThenClick` | github-image-preview.user.js:182-190 | from a fresh portal, clicking an image linked to the raw-content host shows exactly that link; a following click hides the portal only when it lands on the container, and keeps the image |
| `Overlay.ClickListeners.SetOnClickOnImageEvent` | github-image-viewer.user.js:203-219 | one `addEventListener` call per image is logged, on the image's parent link, in the images' order, after the calls already logged |
| `Viewer.RegionImages` | github-image-viewer.user.js:243-249 | the README region is chosen whenever it exists, even beside a discussion; otherwise the discussion; none exactly when neither exists |
| `Viewer.ImagesToWire` | github-image-viewer.user.js:249-253 | an inactive page wires nothing; otherwise an image is wired exactly when it lies in the chosen region and its link is kept |
| `Viewer.ImagesToWireSelects` | github-image-viewer.user.js:251-253 | the wired images are the chosen region's kept images in document order: the images at increasing indices of the region, an index taken exactly when its image's link is kept |
| `Viewer.ScanPage` | github-image-viewer.user.js:240-255 | `main` logs one `addEventListener` call per kept image of the chosen region, on its parent link, and changes nothing else |
| `Viewer.PageObserver.constructor` | github-image-viewer.user.js:14 | the remembered address starts as the page's address |
| `Viewer.PageObserver.Callback` | github-image-viewer.user.js:225-231 | `main` re-runs exactly when the address differs from the remembered one, which then becomes the current address; a repeated address changes nothing |
| `NavbarStyle.GreedyRunEnd` | github-image-preview.user.js:32 | the greedy `.*;` from a position ends at the last `;` reachable without crossing a line terminator, or fails when there is none |
| `NavbarStyle.FindZIndex` | github-image-preview.user.js:32 | the match found is the leftmost `z-…;` span, and the longest one from that start; none is found exactly when no span exists |
| `NavbarStyle.RemoveZIndex` | github-image-preview.user.js:32 | a style without a match is returned unchanged; otherwise exactly the first (leftmost, greedy) match is cut out |
| `NavbarStyle.Navbar.RemoveReadmeNavbarZindex` | github-image-preview.user.js:28-34 | the navbar's style becomes the rewrite of its previous style |
| `NavbarStyle.GreedyRemovesThroughLastSemicolon` | github-image-preview.user.js:32 | in `<no z>z-<a>;<b>;` on one line, everything from `z-` on is removed, the declarations in `<b>` included |
| `NavbarStyle.OnlyFirstMatchRemoved` | github-image-preview.user.js:32 | a z-index declaration on a later line survives the rewrite |

## Left out

- Style sheets (`addStyles` and the CSS template strings): inert text with no behaviour.
- DOM queries and element creation (`getElementById`, `getElementsByTagName`, `querySelector`, `createElement`): the page is given as records (`Collector.ImageElement`, `Viewer.Page`).
- `MutationObserver` set-up, `addEventListener`, event dispatch and `preventDefault`: browser event-loop plumbing. Only the handler bodies are modelled; each `addEventListener` call is logged as its link in `ClickListeners.anchors`.
- The portal's `style` attribute text (`'display: none;'` at creation, `'display: none'` or `''` afterwards) is modelled as the flag `Portal.visible`.
- Browser URL resolution: the resolved `anchor.href` is an input independent of the raw `href` attribute.
- The click target of `onClick` is taken to be the image, so its parent is the link; a click on the link outside the image is not modelled.
- Crashes on missing elements (a README without an `article`, a navbar without a `style` attribute, an image whose `parentElement` is null, an anchor without a `firstElementChild`): the records always hold these values.
- A first child without `src` (the script would then set the preview's address to `null`): `firstChildSrc` is always a string.
- Overlay.ClickListeners.SetOnClickOnImageEvent: logs every `addEventListener` call, while the DOM drops a repeated registration of the same `onClick` closure on the same element within one call (two kept images inside one link get one listener); links are values, not element identities, so two different links with equal attributes cannot be told apart.
- The preview revision's `main` (github-image-preview.user.js:198-216) as a whole: it only calls the modelled operations in sequence and adds styles.
- `gh-image.user.js` beyond lines 17–39: the stray `};` at line 41 makes the file unparseable.
- JavaScript strings are sequences of UTF-16 code units; the model uses Dafny characters. No line terminator lies outside the basic plane, so the matchers agree.
