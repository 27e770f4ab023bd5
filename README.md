# make-real, modelled in Dafny

"Make real" turns a selection on a tldraw whiteboard into a generated web
page. `makeReal` (app/lib/makeReal.ts) captures the selection as an image,
creates a placeholder preview shape at once, asks a completion endpoint
for a page built from the image and the text of the selected shapes, cuts
the HTML document out of the reply, uploads it and writes it into the
placeholder. If the request, the extraction, the upload or the update
fails (the `try` block, lines 55-91), the placeholder is deleted and the
error is raised again.

The model covers the logic that file owns:

- **JavaScript strings** (`Utf16`): a JavaScript string is a sequence of
  UTF-16 code units, and `length`, `indexOf` and `slice` count code units;
  a code point above U+FFFF takes two. The completion's text, the page and
  the endpoint's error message are therefore `JsText`, a sequence of code
  units, and `Utf16.Units` gives the code units of a Dafny string.
- **HTML extraction** (`HtmlExtract`, on top of `JsString`): the slice from
  the first `<!DOCTYPE html>` to the end of the first `</html>`, with
  `indexOf` (-1 when absent) and `slice` (negative start counts back from
  the end, bounds clamped) written out on code units, and the minimum of
  100 code units.
- **Endpoint error text** (`Failures.EndpointMessage`): the first 100 code
  units of the endpoint's message followed by `...`.
- **Reading-order text** (`ReadingOrder`): `getSelectionAsText` as a
  pipeline of functions over the selected shapes and their descendants:
  keep text, geo, arrow and note shapes, sort by page y then x with the
  source's comparator, take `props.text`, drop absent and empty texts,
  join with newlines.
- **The placeholder lifecycle** (`MakeReal`): an `Editor` class whose shape
  store (`map<ShapeId, Shape>`) `makeReal` changes in place through
  `CreateShape`, `UpdatePreview` and `DeleteShape`. What the collaborators
  outside the model answer (the fresh id, the selection with its
  descendants, the selection's bounds, the captured image, the endpoint's
  reply, the upload) is an `Env` parameter, so every combination of
  success and failure is covered. The method also returns the calls it
  made, in order, so that "the placeholder exists before the request" and
  "the upload comes before the update" can be stated.

Modules: `Wrappers` (Option, Result, Outcome), `Utf16`, `JsString`, `Seqs`
(filter and map), `Shapes`, `HtmlExtract`, `Failures`, `ReadingOrder`,
`MakeReal`.

The extraction searches for the first `</html>` anywhere in the reply, not
the first one after the doctype, so a stray `</html>` before the document
makes the reply fail with "Could not generate a design"
(`HtmlExtract.MisplacedMarkerRejected`). A document `<!DOCTYPE html>X</html>`
is extracted exactly only when no marker comes before it and `X` has no
`</html>` of its own, which are the preconditions of `HtmlExtract.RoundTrip`.

The comparator given to `sort` returns 1 for two shapes at the same
position in both directions, so it is not a consistent comparator, and
ECMAScript then leaves the order of the whole sorted array to the engine.
The model sorts by insertion with that comparator and promises reading
order and that no shape is lost or added. That the result is in reading
order even when positions tie is an assumption about the engine's sort; it
holds for the insertion and merge sorts engines use.
`ReadingOrder.ShuffleInvariant` shows the text does not depend on the
input order when no two text-bearing shapes share a position.

## Model

| member | source | states |
|---|---|---|
| `JsString.IndexOf` | app/lib/makeReal.ts:71-72 | `indexOf` answers -1 exactly when the marker does not occur, and otherwise the first index where it occurs |
| `JsString.RelativeIndex` | app/lib/makeReal.ts:73 | how `slice` reads an index: negative counts back from the end, and both ends are clamped to the string |
| `JsString.Slice` | app/lib/makeReal.ts:73 | `slice` gives the contiguous piece between the resolved bounds, empty when they cross; in-range bounds give exactly `s[start..end]` |
| `JsString.Join` | app/lib/makeReal.ts:143 | `join` of no parts is empty; otherwise the result starts with the first part and is as long as all parts plus one separator between each pair of neighbours |
| `JsString.JoinEmpty` | app/lib/makeReal.ts:143 | `join` gives "" exactly when there is nothing, or a single "", to join |
| `JsString.SplitJoin` | app/lib/makeReal.ts:143 | splitting the joined text on the separator gives back the parts, when no part contains the separator |
| `Utf16.UnitsLength` | app/lib/makeReal.ts:65-75 | a text of n code points is between n and 2n UTF-16 code units long, and exactly n exactly when no code point is above U+FFFF |
| `Utf16.AstralUnits` | app/lib/makeReal.ts:75 | a text of code points above U+FFFF only is twice as long in code units, every one of them a surrogate |
| `HtmlExtract.ExtractHtml` | app/lib/makeReal.ts:70-73 | the extracted page is never longer than the reply it is cut from |
| `HtmlExtract.ExtractIsSubstring` | app/lib/makeReal.ts:70-73 | whatever the reply, the extracted text is one contiguous piece of it |
| `HtmlExtract.RoundTrip` | app/lib/makeReal.ts:70-73 | `prefix + "<!DOCTYPE html>" + body + "</html>" + suffix` yields exactly `"<!DOCTYPE html>" + body + "</html>"` when the prefix has neither marker and the body has no `</html>` |
| `HtmlExtract.MisplacedMarkerRejected` | app/lib/makeReal.ts:71-77 | a missing marker, or a first `</html>` before the first doctype, leaves under 7 code units, so the page is refused |
| `HtmlExtract.AcceptedIsDocument` | app/lib/makeReal.ts:71-78 | an accepted page has both markers with the closing tag after the doctype, is the text between them, and opens with the doctype and ends with `</html>` |
| `HtmlExtract.AcceptanceCountsCodeUnits` | app/lib/makeReal.ts:70-78 | a page whose body is n code points above U+FFFF is extracted whole, is 22 + 2n code units long and is accepted exactly when n >= 39 |
| `Failures.EndpointMessage` | app/lib/makeReal.ts:64-65 | the error text is the first min(100, length) UTF-16 code units of the endpoint's message followed by "...", the whole message when it is at most 100 code units, "undefined..." when there is none |
| `Seqs.Filter` | app/lib/makeReal.ts:115-122 | `filter` keeps exactly the elements of the input that pass, each as often as in the input, and only those |
| `Seqs.FilterAppend` | app/lib/makeReal.ts:115-122 | `filter` keeps the input order: the survivors of `xs + ys` are those of `xs` followed by those of `ys` |
| `Seqs.Map` | app/lib/makeReal.ts:136-140 | `map` gives one result per element, the function applied to the element at the same index |
| `Shapes.Lookup` | app/lib/makeReal.ts:110-114 | looking up ids gives the store's shape for each id, in the order of the ids |
| `ReadingOrder.IsTextBearing` | app/lib/makeReal.ts:115-122 | the shapes read are the drawn shapes of every kind except those without a label (previews included among the excluded) |
| `ReadingOrder.Compare` | app/lib/makeReal.ts:123-135 | the comparator answers -1 exactly when the first shape is higher, or level and further left, and 1 otherwise |
| `ReadingOrder.Insert` | app/lib/makeReal.ts:123-135 | inserting into an ordered sequence keeps it in reading order and adds exactly the one shape |
| `ReadingOrder.SortByPosition` | app/lib/makeReal.ts:123-135 | the sorted shapes are in non-decreasing (y, then x) order and are a permutation of the input |
| `ReadingOrder.TextOf` | app/lib/makeReal.ts:136-141 | the text taken from a shape is its `props.text` when present, and a shape without one yields "", which is dropped |
| `ReadingOrder.Shown` | app/lib/makeReal.ts:115-141 | the shapes left after filtering, sorting and dropping are no more than the input, in reading order, and each has a text-bearing kind and a non-empty text |
| `ReadingOrder.SelectionAsText` | app/lib/makeReal.ts:106-144 | the text is empty exactly when no shape contributes a line |
| `ReadingOrder.FilterKeepsOrder` | app/lib/makeReal.ts:136-141 | dropping shapes without text keeps the reading order |
| `ReadingOrder.ShownInReadingOrder` | app/lib/makeReal.ts:115-141 | the shapes whose texts are joined are in reading order, each is of kind text, geo, arrow or note with a non-empty text, and they are exactly the input's such shapes with their multiplicities |
| `ReadingOrder.LinesAreShownTexts` | app/lib/makeReal.ts:136-143 | with single-line texts, the lines of the result are the contributing texts in reading order |
| `ReadingOrder.OrderedUnique` | app/lib/makeReal.ts:123-135 | two ordered arrangements of the same shapes, no two at one position, are identical |
| `ReadingOrder.ShuffleInvariant` | app/lib/makeReal.ts:106-144 | the text is the same for any listing order of the same shapes when no two text-bearing shapes share a position |
| `ReadingOrder.TwoLines` | app/lib/makeReal.ts:106-144 | two contributing shapes listed lower one first give the upper one's text, a newline, then the lower one's text |
| `ReadingOrder.HelloWorld` | app/lib/makeReal.ts:106-144 | "World" at (0,50) listed before "Hello" at (0,0) gives "Hello\nWorld" |
| `MakeReal.Placeholder` | app/lib/makeReal.ts:41-47 | the placeholder is a preview 60 to the right of the selection, centred 180 above its middle, with empty html, the captured image as source and no upload markers |
| `MakeReal.Filled` | app/lib/makeReal.ts:82-91 | the updated preview keeps its position and carries the page, the image, `linkUploadVersion` 1 and its own id as `uploadedShapeId` |
| `MakeReal.Candidate` | app/lib/makeReal.ts:56-78 | the try block reaches the upload exactly when the reply is a completion whose extracted page has at least 100 UTF-16 code units; that page is a doctype-to-`</html>` document; a reply without a marker fails as too short; an error body fails with the truncated message; a thrown request fails with its own error |
| `MakeReal.Editor.SelectedShapes` | app/lib/makeReal.ts:9 | the selected shapes are the store's shapes for the selected ids, in selection order |
| `MakeReal.Editor.CreateShape` | app/lib/makeReal.ts:41-47 | creating adds the shape under its fresh id and changes nothing else |
| `MakeReal.Editor.UpdatePreview` | app/lib/makeReal.ts:82-91 | updating a preview replaces its props and keeps its position; any other shape is untouched |
| `MakeReal.Editor.DeleteShape` | app/lib/makeReal.ts:93 | deleting removes exactly that id |
| `MakeReal.Editor.TryGenerate` | app/lib/makeReal.ts:55-95 | request, then upload of the accepted page, then the update of the placeholder; any failure deletes the placeholder and raises the same error; no other shape changes |
| `MakeReal.Editor.MakeReal` | app/lib/makeReal.ts:7-96 | an empty selection or a failed capture is refused with no call and no change; otherwise the placeholder (html "", source the image) is created first, the repeat event is tracked when previews are selected, the request carries the image, the reading-order text of the selected shapes and their descendants, the selected previews and the theme; success leaves exactly one new shape, the filled preview, after the upload; failure leaves the document as it was and raises the error of the failing step |

## Left out

- Rendering and rasterisation (`editor.getSvg`, `getSvgAsImage`, `blobToBase64` with its `FileReader`, the Safari user-agent test): they are browser and tldraw calls; their outcome is `Env.capture` (no SVG, a failed rasterisation, or an opaque data URL).
- `getHtmlFromOpenAI`, `uploadLink` and `track`: HTTP and analytics calls whose code is not part of this model; their answers are `Env.reply` and `Env.upload`, and the calls made to them are recorded in the returned trace. The event's timestamp (`Date.now()`) is left out.
- A completion whose `choices[0].message.content` is missing, which would throw a TypeError inside the try block: `Env.reply` always carries text for a completion.
- `getShapeAndDescendantIds`: the editor's traversal of the shape tree is not modelled; its answer for the selection is `Env.withDescendants`, and `MakeReal` requires only that those ids name shapes of the document, as the editor guarantees (the source dereferences each with `getShape(id)!`).
- `getShapePageBounds`: each shape carries its page position as integer `x` and `y`.
- Floating-point coordinates: positions and the selection's `maxX` and `midY` are integers.
- `console.log`, `console.warn` and `downloadDataURLAsFile`: logging and a DOM download with no effect on the outcome.
- `createShapeId`: the fresh id is `Env.newShapeId`, and `MakeReal` requires that it is not yet in the document, as the generator guarantees.
- MakeReal.Editor.DeleteShape: requires the shape to be outside the selection; tldraw would also deselect it, which `makeReal` never needs because the placeholder is never selected.
- ReadingOrder.SortByPosition: the order of shapes at identical positions is not promised, because the source's comparator is inconsistent there and the engine decides.
- JsString.Split and JsString.Join: the separator is a single element, the only kind `getSelectionAsText` uses.
- async/await: the flow is strictly sequential and is modelled as straight-line code.
- Shape labels, the selection text, ids, the data URL and thrown reasons are Dafny strings of code points: the model only compares, joins and splits them, so their UTF-16 lengths never matter.
- MakeReal.Editor.MakeReal: `track` (line 50) and `getSelectionAsText` (line 53) run after the placeholder is created but outside the `try` block; the model treats them as never throwing, so the case where one of them throws and the placeholder stays in the document is not covered.
