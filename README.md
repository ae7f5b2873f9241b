# Responsive-image and lazy-load bookkeeping of the XFORM Robotics homepage

This project models, in Dafny, the `ImageOptimizer` class of the homepage's
image loader (`v28oct2025/js/image-optimizer.js`):

- the fallback `srcset` parser `parseSrcset`, which splits a
  `"url width, url width"` attribute on commas, trims each piece, splits it on
  single spaces and reads the width with `parseInt(...) || 0`;
- the nearest-width chooser `selectImageSource`, a left-to-right scan that
  keeps the candidate nearest the viewport width and replaces it only on a
  strictly smaller distance;
- the `processedImages` set with which `observeImages`, `refresh` and
  `addImage` hand each lazy image to the intersection observer at most once;
- the effect of `loadImage` / `handleImageError` on an image element and its
  container once the image fetch has settled, and `loadResponsiveImage`,
  which strings parser and chooser together.

Files:

- `wrappers.dfy` — `Option`.
- `js_string.dfy` (`JsStrings`) — `split` with a one-character separator,
  its inverse `Join`, and `trim`/`trimStart`/`trimEnd` over the ECMAScript
  white-space and line-terminator code points.
- `js_number.dfy` (`JsNumbers`) — `parseInt` without a radix: leading white
  space, an optional sign, a `0x`/`0X` prefix switching to base 16, the
  longest run of digits, `NaN` as `None`; and `Decimal`, the numeral of a
  natural number, used to state round trips.
- `srcset.dfy` (`Srcset`) — the `Source` record, `ParseEntry`, `ParseSrcset`,
  and `RenderSrcset`, which writes candidates as `a.jpg 400w, b.jpg 800w`;
  parsing inverts rendering.
- `selection.dfy` (`Selection`) — `NearestIndex`, the index the scan ends on,
  proved to be the first of the nearest candidates and the only such index;
  `SelectImageSource`, the loop itself, proved against it.
- `image_optimizer.dfy` (`LazyImages`) — `Img` and `Container` objects whose
  fields stand for the attributes, classes and inline styles the code
  touches, and the `ImageOptimizer` class with `processedImages` and the log
  of `observe` calls, kept duplicate-free by every method.

The parser follows the code's own simplified rule and not the HTML
Standard's srcset algorithm: `2x` descriptors are read as widths of 2, a
double space leaves an empty width token (width 0), and `0x20w` is read as
the hexadecimal width 32, exactly as `parseInt` does.

The code does not do what it announces in two places. The "Retry" link
of the error block (`v28oct2025/js/image-optimizer.js:105`) and the comment
at `:120` promise a reload, but `retryImage` throws at `:121` before
reloading; it is left out (see "Left out" for what a click does). And
`selectImageSource` defines no result for an empty candidate list but
throws on `sources[0].width` at `:188`, so `SelectImageSource` requires a
non-empty list, and `ParseSrcset` is proved never to return an empty one.

## Model

| member | source | states |
|---|---|---|
| `JsStrings.Split` | v28oct2025/js/image-optimizer.js:176-177 | `split` on one character yields one piece more than there are separators (so never none), and no piece contains the separator |
| `JsStrings.JoinSplit` | v28oct2025/js/image-optimizer.js:176 | joining the pieces of a split with the separator gives back the original string |
| `JsStrings.SplitJoin` | v28oct2025/js/image-optimizer.js:176 | splitting the join of separator-free pieces gives back exactly those pieces |
| `JsStrings.SplitHeadTail` | v28oct2025/js/image-optimizer.js:177 | the first piece of a split is the text before the first separator, and the remaining pieces are the split of the text after it (a single piece when there is no separator) |
| `JsStrings.Trim` | v28oct2025/js/image-optimizer.js:177 | `trim()`: never longer than its input and neither starting nor ending with white space; `TrimSlice` and `TrimPadded` pin it down exactly |
| `JsStrings.TrimSlice` | v28oct2025/js/image-optimizer.js:177 | `trim` returns a contiguous slice of its input that neither starts nor ends with white space, cutting off nothing but white space on either side |
| `JsStrings.TrimPadded` | v28oct2025/js/image-optimizer.js:177 | `trim` removes exactly the white-space padding around a text that does not start or end with white space |
| `JsNumbers.ParseInt` | v28oct2025/js/image-optimizer.js:178 | `parseInt(width)`: a number is read only when the text starts, after white space, with a sign or a decimal digit, and is negative only after a minus sign; `ParseIntDigits`, `ParseIntSigned`, `ParseMagnitudeNaN`, `ParseIntHexNumeral` and `ParseIntSkipsSpace` give its values on every input |
| `JsNumbers.ParseIntDigits` | v28oct2025/js/image-optimizer.js:178 | any run of decimal digits, leading zeros included, followed by nothing or a non-digit reads as its decimal value (`"0400w"` gives 400), except a lone `0` followed by `x`/`X` |
| `JsNumbers.ParseIntSigned` | v28oct2025/js/image-optimizer.js:178 | a leading `+` reads the same number as the text after it and a leading `-` its negation; either sign followed by no number is `NaN` (the `Negate`/`Widen` of `None`) |
| `JsNumbers.ParseMagnitudeNaN` | v28oct2025/js/image-optimizer.js:178 | after the sign, text that is empty or does not start with a decimal digit is `NaN`, so `"-w"` and `"+"` are `NaN` |
| `JsNumbers.ParseIntDecimal` | v28oct2025/js/image-optimizer.js:178 | the numeral `Decimal(n)` (no leading zeros) followed by any non-digit reads back as `n` (`"400w"` gives 400), except an `x`/`X` after a lone `0` |
| `JsNumbers.ParseIntNegatedDecimal` | v28oct2025/js/image-optimizer.js:178 | the same numeral after a minus sign gives `-n` |
| `JsNumbers.ParseIntNaN` | v28oct2025/js/image-optimizer.js:178 | text that, after white space, starts with neither a sign nor a decimal digit is `NaN` (so the width falls back to 0) |
| `JsNumbers.ParseIntSkipsSpace` | v28oct2025/js/image-optimizer.js:178 | leading white space does not change what `parseInt` reads |
| `JsNumbers.ParseIntHexNumeral` | v28oct2025/js/image-optimizer.js:178 | a `0x` or `0X` prefix switches to base 16: the run of hexadecimal digits after it, up to the first non-hexadecimal character, reads as its base-16 value (`"0x1Aw"` gives 26), and an empty run is `NaN` (`"0xg"`) |
| `JsNumbers.ParseIntLeadingZeros` | v28oct2025/js/image-optimizer.js:178 | `"0400w"` and `"+0400w"` both read as 400 |
| `JsNumbers.ParseIntSignedHex` | v28oct2025/js/image-optimizer.js:178 | a sign before an upper-case prefix is honoured: `"-0X1A"` reads as -26 |
| `JsNumbers.ParseIntBareSign` | v28oct2025/js/image-optimizer.js:178 | a sign with no digit after it, `"-w"`, is `NaN` |
| `Srcset.WidthOf` | v28oct2025/js/image-optimizer.js:178 | `parseInt(width) \|\| 0`: the width is the number `parseInt` read, or 0 when it read `NaN`; a non-zero width is always what `parseInt` read |
| `Srcset.ParseEntry` | v28oct2025/js/image-optimizer.js:176-179 | the url is a space-free prefix of the trimmed piece, and a piece without a space is all url with width 0; `ParseEntryTokens` gives url and width exactly |
| `Srcset.ParseSrcset` | v28oct2025/js/image-optimizer.js:175-180 | one candidate per comma-separated piece, one more than there are commas, so the list is never empty and `sources[0]` is safe on parsed input |
| `Srcset.ParseSrcsetPieces` | v28oct2025/js/image-optimizer.js:176-179 | the candidates of comma-joined pieces are exactly the pieces' own entries, in order |
| `Srcset.ParseEntryTokens` | v28oct2025/js/image-optimizer.js:177-178 | the url is the trimmed piece up to its first space; the width is `parseInt` of the text between the first and second space or 0 when it is `NaN`, and 0 when there is no space |
| `Srcset.ParseEntryDescriptor` | v28oct2025/js/image-optimizer.js:177-178 | a candidate written `url 400w`, with any leading white space, parses back to the same url and width |
| `Srcset.ParseRenderSrcset` | v28oct2025/js/image-optimizer.js:175-180 | parsing a rendered list `a.jpg 400w, b.jpg 800w` of plain candidates gives back the list |
| `Selection.Distance` | v28oct2025/js/image-optimizer.js:188-191 | `Math.abs(viewportWidth - width)`: the larger of the two differences, zero exactly when the widths are equal |
| `Selection.NearestIndex` | v28oct2025/js/image-optimizer.js:187-196 | the scan's final index is always a valid index into the candidate list |
| `Selection.NearestIndexIsFirstNearest` | v28oct2025/js/image-optimizer.js:187-196 | no candidate is nearer to the viewport width than the chosen one, and every earlier candidate is strictly farther (first occurrence wins ties) |
| `Selection.NearestIndexCharacterized` | v28oct2025/js/image-optimizer.js:187-196 | an index is the scan's choice if and only if it is the first of the nearest candidates |
| `Selection.SingleCandidate` | v28oct2025/js/image-optimizer.js:187-198 | a one-candidate list yields that candidate for every viewport width |
| `Selection.NearestExamples` | v28oct2025/js/image-optimizer.js:186-198 | candidates at 400 and 800: a 750 viewport chooses the 800 one, a 500 viewport the 400 one |
| `Selection.SelectImageSource` | v28oct2025/js/image-optimizer.js:182-199 | the loop returns the url of the first of the nearest candidates; its invariant keeps `bestDiff` equal to the distance of `bestSource` and no greater than that of any candidate scanned so far |
| `LazyImages.NewlyObserved` | v28oct2025/js/image-optimizer.js:37-45 | a pass hands to the observer each image not yet processed and not earlier in the pass, never one twice, and exactly the passed images outside the processed set |
| `LazyImages.ObserveAgainObservesNothing` | v28oct2025/js/image-optimizer.js:37-45 | a pass over images that were all processed observes nothing (observing is idempotent) |
| `LazyImages.RegistrationsStayUnique` | v28oct2025/js/image-optimizer.js:37-45 | registrations that were unique and equal to the processed set stay so after a pass, and the set grows by exactly the passed images |
| `LazyImages.ImageOptimizer.constructor` | v28oct2025/js/image-optimizer.js:5-35 | the processed set starts empty and ends as exactly the document's `img[data-src]` elements, each observed once |
| `LazyImages.ImageOptimizer.ObserveImages` | v28oct2025/js/image-optimizer.js:37-45 | observes the unprocessed images in order, the processed set only grows, afterwards holds every given image, and no image is ever observed twice |
| `LazyImages.ImageOptimizer.Refresh` | v28oct2025/js/image-optimizer.js:234-236 | the same as `ObserveImages` on the images present now |
| `LazyImages.ImageOptimizer.AddImage` | v28oct2025/js/image-optimizer.js:202-231 | a lazy image is fresh, hidden, carries `data-src`, sits next to a placeholder and is observed and processed once; an eager one gets `src` and `loaded` and leaves the set alone |
| `LazyImages.ImageOptimizer.LoadImage` | v28oct2025/js/image-optimizer.js:47-83 | without a deferred source nothing changes; on success `src` is the deferred source, `loaded` is set, `data-src` removed and the placeholder hidden; on failure the image is hidden and exactly one error block appended; with a deferred source it ends loaded exactly when the fetch succeeded, errored otherwise |
| `LazyImages.ImageOptimizer.HandleImageError` | v28oct2025/js/image-optimizer.js:95-111 | hides the image and appends exactly one error block to its parent, changing nothing else |
| `LazyImages.ImageOptimizer.LoadResponsiveImage` | v28oct2025/js/image-optimizer.js:160-173 | with a non-empty `data-srcset`, `src` becomes the url of the first nearest parsed candidate unless that url is empty; otherwise `src` is unchanged |

## Left out

- `js/section-loader.js`: fixed HTML fragments assigned to `innerHTML`, a reveal-class toggle driven by an intersection observer, and smooth-scroll wiring; DOM side effects with no logic to model.
- The intersection observer itself (`v28oct2025/js/image-optimizer.js:22-31`): its callback, which calls `loadImage` and `unobserve` when an image intersects, is a browser callback; the model records the `observe` calls and leaves when an image becomes visible to the caller.
- The asynchronous `Image` fetch in `loadImage` (`:53-77`): its outcome is the `fetchSucceeds` parameter of `LoadImage`; the state while the fetch is in flight is not modelled. The `try`/`catch` (`:79-82`) guards statements that do not throw in the model.
- `animateImage` (`:85-93`): an inline animation cleared by a 600 ms timer; no lasting effect on the modelled state.
- `retryImage` (`:113-126`): it reads `errorDiv.parentElement` after `errorDiv.remove()` (and dereferences `errorDiv` even when it is null), so it throws instead of reloading; it is not modelled as a recovery path. A click on "Retry" still has an effect before the `TypeError` at `:121`: the error block is removed (`:116-118`), so the image stays hidden with no error block, a state in which it is neither `IsLoaded()` nor `IsErrored()`.
- `setupImagePreloading` (`:128-142`) and the native-srcset branch of `setupResponsiveImages` (`:144-157`): they only append `<link>` elements or copy attributes; which branch runs depends on the browser.
- The markup of `addImage` (alt text, caption, classes) and its `appendChild` into the caller's container, and the injected CSS (`:244-274`); only the new elements' modelled fields and the processed set are kept. `src` is put into the markup unescaped (`:212`, `:222`), so the model assumes it contains no `"` and no character reference such as `&amp;`; for any other `src` the browser's parse of the markup changes the attribute and `img.dataSrc == Some(src)` and `img.src == src` do not hold.
- `ImageOptimizer.AddImage`: the source's default `lazy = true` (`:203`) is not modelled; callers always pass `lazy`, so a call that omits it is the call with `true`.
- `ImageOptimizer.constructor`: `init()` (`:16-20`) also runs `setupResponsiveImages`, whose fallback branch calls `loadResponsiveImage` on every `img[data-srcset]`; the constructor does not run that pass, which never touches `processedImages`, and `LoadResponsiveImage` models one step of it.
- `window.innerWidth` and the `sizes` argument: the viewport width is a parameter, `sizes` is unused by the code.
- `document.querySelectorAll('img[data-src]')`: the matching elements are a parameter of `ObserveImages`, `Refresh` and the constructor.
- JavaScript strings are UTF-16 code units, and `parseInt` and `Math.abs` work on double-precision numbers; the model uses Unicode scalar values and unbounded integers, so surrogate pairs and widths beyond 2^53 are not modelled.
- `imgElement.parentElement` is assumed present (`Img.parent` is never null); a detached image would make the success and error handlers throw.
