# Signature placement in signer-client

A Dafny model of the engine that places signatures on PDF pages in the
signer-client web application. The engine is the signing view
(`PDFView.tsx`) and the per-document panel (`PDF.tsx`). It covers:

- the placement store: add, drag, resize, remove and clear;
- the page trackers, one per document, fed by the PDF viewer and by pointer moves;
- the panel's mapping from a pointer to page coordinates;
- the panel's pointer handlers and its interaction fields: the dragged
  signature, the grab offset, the resized signature and the resize handle;
- the current-page overlay and the `indexOf` lookups it makes;
- the submit loop, which builds one upload per document and matching placement;
- the base 64 conversions of the document bytes, as section 4 of RFC 4648
  defines the encoding.

Modules, one per file:

- `Wrappers` holds the `Option` type used for absent values and failures.
- `JsMath` holds `Math.min`, `Math.max` and the clamp `Math.max(lo, Math.min(hi, v))`
  the view uses.
- `Placements` holds the store transforms the view passes to its state setter.
- `PageTrackers` holds the tracker record updates.
- `PdfCoordinates` holds the mapper.
- `Overlay` holds the current-page filter and the index lookup.
- `Interaction` holds the panel as a class. Its four mutable fields are
  updated by its methods. Each method returns the callbacks it makes to the
  view, in order.
- `Base64` holds the encoding and the browser's `btoa`/`atob`.
- `Transcode` holds the encode loop and the decode loop. The decode loop
  fills a byte array.
- `Submission` holds the submit handler as nested loops. A function `Run`
  specifies it.
- `PdfView` holds the view state. It wires each panel's callbacks to the
  store and the trackers, and it states the two defects listed under Findings.

JavaScript behaviour is written out where it matters:

- An empty image string, an empty base 64 string and an empty error text all
  count as false.
- `tracker?.currentPage || 1` reads a missing tracker, a missing page and
  page 0 as page 1.
- Spreading a missing tracker entry gives an entry with no fields. Every
  tracker field is therefore optional.
- `new Uint8Array` reduces each number modulo 256.
- `indexOf` in the overlay finds the very object drawn. It is modelled as the
  position of the k-th drawn item, not as a search by value.
- Turning an absent page into text throws, and so does `atob` on text that
  is not base 64. Either ends the submit with the `Crashed` outcome.

In three places the code does less than its names and comments suggest,
and the model follows the code:

- A drag moves the placement's corner to the raw pointer position. The grab
  offset is recorded but never read.
- No pointer gesture resizes. The resize handlers only record the index and
  the handle, and the resize transform is never called.
- The interaction fields are four independent fields, not one tagged state.

## Model

| member | source | states |
|---|---|---|
| Placements.NewPlacement | src/components/PDFView.tsx:224-249 | The new placement has the document id, page and default size given. The y coordinate is inverted. The box is centred on the point when it fits. A box that would start before the page edge starts at 0. One that would end past the far edge ends exactly at 1, so x is 1 − width (y is 1 − height). It never starts before 0 or ends after 1. |
| Placements.AddSignature | src/components/PDFView.tsx:220-254 | Nothing changes in simple mode or without a loaded image. Otherwise the store is the old store followed by exactly one new placement. |
| Placements.Dragged | src/components/PDFView.tsx:261-271 | Only x and y change. The new position is at least 0 and leaves the box on the page. A target that already fits is taken as is. A target below 0 becomes 0, and one past 1 − width (1 − height) becomes exactly that bound. |
| Placements.Drag | src/components/PDFView.tsx:257-277 | The store keeps its length. Only the entry at the index changes, and an invalid index changes nothing. |
| Placements.Resized | src/components/PDFView.tsx:284-299 | Only the width and height change. Each is at least its minimum (0.05, 0.03) and at most max(minimum, min(0.5 or 0.3, 1 − position)). A request already inside those bounds is taken as is. A request below the minimum becomes the minimum, and one above the cap becomes max(minimum, cap). |
| Placements.Resize | src/components/PDFView.tsx:280-306 | The store keeps its length. Only the entry at the index changes, and an invalid index changes nothing. |
| Placements.Remove | src/components/PDFView.tsx:325-327 | A valid index yields the store without that one entry, the rest in order. An invalid index yields the store unchanged. |
| Placements.ClearAll | src/components/PDFView.tsx:509 | The store becomes empty. |
| Placements.ForDoc | src/components/PDFView.tsx:547 | The document's view holds exactly the store's entries of that document, and is no longer than the store. |
| Placements.ForDocCounts | src/components/PDFView.tsx:547 | The view holds each entry of the document as many times as the store does, and no entry of another document. |
| Placements.GlobalIndexIncreases | src/components/PDFView.tsx:547 | Later view entries sit at later store positions, so the view keeps store order. |
| Placements.GlobalIndexComplete | src/components/PDFView.tsx:547 | Every store position holding an entry of the document is the store position of some view entry. |
| Placements.AddKeepsWellPlaced | src/components/PDFView.tsx:227-240 | With a default size the sliders can produce, adding keeps every placement on its page and within the size bounds. |
| Placements.DragKeepsWellPlaced | src/components/PDFView.tsx:262-264 | Dragging keeps every placement on its page and within the size bounds. |
| Placements.ResizeKeepsWellPlaced | src/components/PDFView.tsx:285-293 | Resizing keeps every placement on its page and within the size bounds. |
| Placements.RemoveKeepsWellPlaced | src/components/PDFView.tsx:325-327 | Removing and clearing keep every remaining placement on its page and within the size bounds. |
| Placements.DragIdempotent | src/components/PDFView.tsx:257-277 | Repeating a drag with the same target changes nothing more. |
| Placements.ResizeIdempotent | src/components/PDFView.tsx:280-306 | Repeating a resize with the same request changes nothing more. |
| Placements.RemoveDropsOne | src/components/PDFView.tsx:325-327 | A valid remove shortens the store by one and takes out exactly one copy of the removed entry. |
| Placements.GlobalIndexFindsEntry | src/components/PDFView.tsx:547 | The k-th entry of a document's view sits at a valid store position that holds that entry. |
| Placements.SingleDocumentIndicesAgree | src/components/PDFView.tsx:547-549 | With one document in the store, its view is the whole store, so view and store positions agree. |
| Placements.RemoveAtGlobalIndex | src/components/PDFView.tsx:325-327 | Removing the store entry behind a view position removes exactly that entry from the document's view. |
| Placements.RemoveKeepsOtherDocuments | src/components/PDFView.tsx:325-327 | Removing one document's entry leaves every other document's view unchanged. |
| Placements.DragAtGlobalIndex | src/components/PDFView.tsx:257-277 | Dragging the store entry behind a view position drags exactly that entry of the document's view. |
| Placements.DragKeepsOtherDocuments | src/components/PDFView.tsx:257-277 | Dragging one document's entry leaves every other document's view unchanged. |
| PageTrackers.DocumentLoad | src/components/PDFView.tsx:160-178 | The entry is written with the document id, page 1, the page count and zeroed pointer fields. Other documents' entries are untouched. |
| PageTrackers.PageChange | src/components/PDFView.tsx:144-158 | Nothing changes in simple mode. Otherwise the document's page becomes the reported zero-based page plus one, and every other field and entry is kept. |
| PageTrackers.MouseMove | src/components/PDFView.tsx:181-198 | Nothing changes in simple mode. Otherwise exactly the four pointer fields of the document's entry are replaced, and other entries are untouched. |
| PageTrackers.PageChangeMouseMoveCommute | src/components/PDFView.tsx:144-198 | A page change and a pointer move commute, on the same or different documents. |
| PageTrackers.LoadForgetsEarlierEvents | src/components/PDFView.tsx:160-178 | A load overwrites every field written by earlier page changes and pointer moves. |
| PageTrackers.MouseMoveKeepsPages | src/components/PDFView.tsx:186-195 | A pointer move never changes the current page or the page count. |
| PdfCoordinates.GetPdfCoordinates | src/components/PDF.tsx:122-153 | There is no result without a page layer. With a page layer there is a result exactly when the pointer is inside the page rectangle. pdfX/pdfY are the pointer minus the rectangle's corner. pageX/pageY lie in [0, 1] and equal pdfX/width and pdfY/height. |
| Overlay.DisplayedPage | src/components/PDF.tsx:239 | The page shown is the tracker's page when it is present and not 0, and 1 otherwise. |
| Overlay.PageFilterMembers | src/components/PDF.tsx:238-240 | The drawn placements are exactly the view's placements whose page equals the page shown. |
| Overlay.CurrentPageSignatures | src/components/PDF.tsx:238-240 | The list drawn holds exactly the view's placements on the page shown (the tracker's page, or 1), and is no longer than the view. |
| Overlay.OverlayIndexCorrect | src/components/PDF.tsx:419-437 | `OverlayIndex`, the position `indexOf` sends for the k-th drawn item, is a valid view position holding that very placement. Later items have later positions. |
| Overlay.OverlayIndexComplete | src/components/PDF.tsx:398-437 | Every view placement on the page shown is drawn as some item, whose `OverlayIndex` is that placement's position. |
| Overlay.DisplayedPageFollowsViewer | src/components/PDFView.tsx:144-178 | After a load the panel shows page 1. After a later page change to zero-based page n it shows page n + 1. |
| Interaction.DocumentPanel.constructor | src/components/PDF.tsx:96-104 | A new panel is idle: no drag, a zero offset, no resize target, no handle. |
| Interaction.DocumentPanel.HandleMouseMove | src/components/PDF.tsx:155-179 | No calls in simple mode or off the page. Otherwise it reports the mapped position, then a drag to the raw page position exactly when a drag is in progress. The drag target lies in [0, 1] and no offset is subtracted. |
| Interaction.DocumentPanel.HandleClick | src/components/PDF.tsx:181-196 | No calls in simple mode or off the page. Otherwise it reports the click, then an add at the page position exactly when it is a second click and an image is loaded. |
| Interaction.DocumentPanel.HandleResizeMouseDown | src/components/PDF.tsx:198-205 | Records the handle and, as the resize target, the `OverlayIndex` of the drawn item: the view position `indexOf` finds for it. The drag fields are unchanged. |
| Interaction.DocumentPanel.HandleSignatureMouseDown | src/components/PDF.tsx:207-222 | Starts a drag of the drawn item's `OverlayIndex`, the view position `indexOf` finds for it. On the page, the offset is the pointer minus the placement's corner; off the page it is kept. The resize fields are unchanged. |
| Interaction.DocumentPanel.HandleMouseUp | src/components/PDF.tsx:224-227 | The panel becomes idle. The resize fields are kept. |
| Interaction.DocumentPanel.HandleSignatureDoubleClick | src/components/PDF.tsx:229-235 | Makes exactly one call: a remove of the drawn item's `OverlayIndex`, the view position `indexOf` finds for it. |
| Base64.Encode | src/components/PDFView.tsx:73 | The encoding of n bytes has 4·⌈n/3⌉ characters. |
| Base64.DecodeEncode | src/components/PDFView.tsx:376 | Decoding the encoding of any byte sequence gives it back. |
| Base64.DecodeLength | src/components/PDFView.tsx:376 | Text whose length is not a multiple of four never decodes. Decoded text gives at most three bytes per four characters. |
| Base64.Btoa | src/components/PDFView.tsx:73 | `btoa` succeeds exactly on strings whose character codes are bytes, and gives 4·⌈n/3⌉ characters for n of them. |
| Base64.Atob | src/components/PDFView.tsx:376 | What `atob` returns is a string of bytes. It accepts only text whose length is a multiple of four, and gives at most three characters per four. |
| Base64.AtobBtoa | src/components/PDFView.tsx:73 | `atob` undoes `btoa` on every string whose character codes are bytes. |
| Transcode.ToUint8 | src/components/PDFView.tsx:68 | Each number becomes its value modulo 256, and numbers already bytes are kept. |
| Transcode.ArrayBufferToBase64 | src/components/PDFView.tsx:64-76 | The loop's result is the encoding of the file's bytes, and it decodes back to those bytes. |
| Transcode.Base64ToBytes | src/components/PDFView.tsx:374-381 | The bytes written into the fresh array are the decoding of the text. There is nothing when the text does not decode. |
| Transcode.BytesSurviveTranscoding | src/components/PDFView.tsx:64-76 | The bytes rebuilt at submit time from a prepared document's text are the file's bytes. |
| Submission.StepForCases | src/components/PDFView.tsx:360-400 | `StepFor`, one pair's step: a pair is skipped exactly when the document's data is unrecognised. It throws exactly when the data does not decode or the placement has no page. An upload carries the document's bytes, ids and file name (or "document.pdf") and the placement's page and geometry. |
| Submission.PrepareUpload | src/components/PDFView.tsx:364-400 | The method builds exactly the step the specification function gives. |
| Submission.HandleSubmit | src/components/PDFView.tsx:348-416 | Its outcome and uploads are `SubmitResult`: it is rejected, making no upload, exactly without an image or without placements. Otherwise the outcome and the uploads made are those of `Run` over all (document, placement) pairs. |
| Submission.PairsMatchDocuments | src/components/PDFView.tsx:354-359 | Every pair joins a document with one of that document's placements. |
| Submission.PairsCounts | src/components/PDFView.tsx:354-359 | `Pairs` holds the pair of a document and a placement of that document as many times as the two counts multiplied, and no pair of a placement with another document. |
| Submission.DocPairsCounts | src/components/PDFView.tsx:359 | One document's pairs hold each of its placements as often as its placement list does, and nothing for any other document. |
| Submission.RunOnlyAppends | src/components/PDFView.tsx:354-416 | `Run` keeps the uploads already made as a prefix, adds at most one per pair, and never ends as rejected. |
| Submission.RunSkipsToUploads | src/components/PDFView.tsx:364-407 | When no step throws, the run is the run of the uploads its steps make, in order: skipped pairs make no call. |
| Submission.UploadsAreCallBundles | src/components/PDFView.tsx:364-400 | When every pair uploads, no step throws and each pair gives exactly its own upload, in order. |
| Submission.FirstFailure | src/components/PDFView.tsx:402-407 | The position it returns is at most the number of uploads. When it is a position, the upload there fails. |
| Submission.BeforeFirstFailure | src/components/PDFView.tsx:402-407 | Every upload before the first failure succeeds. |
| Submission.RunStopsAtFirstFailure | src/components/PDFView.tsx:383-407 | When no step throws, skips included, and an upload fails, the run makes the uploads of the non-skipped pairs in order up to and including the first failure, and reports that error. |
| Submission.RunCompletes | src/components/PDFView.tsx:383-410 | When no step throws and no upload fails, the run completes after making every upload of the non-skipped pairs, in order. |
| Submission.SubmitGated | src/components/PDFView.tsx:349-352 | Without an image or without placements, no upload is made. |
| Submission.SecondOfThreeFails | src/components/PDFView.tsx:402-407 | Of three uploads where the second fails, exactly two are made. |
| Submission.NoPageNoUpload | src/components/PDFView.tsx:395 | Placements without a page never produce an upload. |
| Submission.PreparedDocumentBytes | src/components/PDFView.tsx:374-385 | A document prepared from a buffer object uploads the buffer's bytes. An empty buffer gives empty text, which counts as absent, so its pairs are skipped. |
| PdfView.Initial | src/components/PDFView.tsx:49-57 | The first view is consistent, with no placement, no tracker and no image. |
| PdfView.TrackerOf | src/components/PDFView.tsx:541 | A panel receives its document's tracker exactly when one exists. |
| PdfView.PanelSignatures | src/components/PDFView.tsx:547 | A panel receives exactly its document's placements. |
| PdfView.PanelKeepsStoreOrder | src/components/PDFView.tsx:547 | A panel's list holds its document's placements in store order, each as many times as the store does: its k-th entry is the store entry at the k-th increasing position. |
| PdfView.ApplyViewerEvent | src/components/PDFView.tsx:144-178 | Only the trackers change, and other documents' trackers stay. A load applies the load update to the trackers and a page change applies the page update, simple-mode no-op included. After a load the panel shows page 1. After a page change outside simple mode it shows the reported page plus one. |
| PdfView.ApplyCall | src/components/PDFView.tsx:536-553 | Image, default size and mode never change. Other documents' trackers stay. Only a pointer move changes trackers, and it applies the pointer update to them (a no-op in simple mode). Pointer moves and clicks leave the store alone. An add applies the add transform with no page. A drag and a remove apply their transforms at the panel's index, taken as a store position. The store grows or shrinks by at most one. |
| PdfView.ApplyCallCorrected | src/components/PDFView.tsx:536-553 | As `ApplyCall`, pointer moves included, except that an add passes the page the panel shows, and a drag or remove maps the panel's index to its store position first. |
| PdfView.CallsKeepConsistent | src/components/PDFView.tsx:536-553 | Every panel call keeps every placement on its page and within the size bounds. |
| PdfView.SingleDocumentCallsAgree | src/components/PDFView.tsx:547-550 | With one document, a drag or remove as written equals the corrected one. |
| PdfView.ApplyControl | src/components/PDFView.tsx:309-518 | An image file replaces the image and any other file changes nothing. Each slider sets one dimension of the default size. Clear empties the store, and remove drops the image. Trackers never change. |
| PdfView.ControlsKeepConsistent | src/components/PDFView.tsx:465-498 | With values the range inputs can produce, the controls keep the view consistent. |
| PdfView.NoImageNoEffect | src/components/PDFView.tsx:516 | After the image is removed, an add changes nothing and a submit is rejected. |
| PdfView.AddedPlacementIsLost | src/components/PDF.tsx:191 | As written, an added placement has no page. No panel draws it on any page, and no upload is built for it. |
| PdfView.CorrectedAddIsDrawn | src/components/PDFView.tsx:220-254 | Corrected, the added placement is drawn on the page its panel shows, and a document with readable bytes uploads it. |
| PdfView.PanelIndexHitsOtherDocument | src/components/PDFView.tsx:547-549 | As written, with two documents, a remove or drag from document b's panel acts on document a's placement. |
| PdfView.AsWrittenStaysPageless | src/components/PDF.tsx:191 | As written, when no placement has a page, none has one after any panel call, control or viewer event. |
| PdfView.PagelessDrawsNothing | src/components/PDF.tsx:238-240 | When no placement has a page, no panel draws any placement. |
| PdfView.TwoDocumentsReachableWhenCorrected | src/components/PDFView.tsx:220-254 | With the corrected add, loading an image and adding once in each of two panels reaches the two-document store. |
| PdfView.CorrectedRemoveTargetsClicked | src/components/PDF.tsx:229-235 | Corrected, a double-click removes exactly the placement drawn, and every other document's view is unchanged. |
| PdfView.CorrectedDragTargetsGrabbed | src/components/PDF.tsx:155-179 | Corrected, a drag moves exactly the placement grabbed, and every other document's view is unchanged. |

## Left out

- Rendering is not modelled: the JSX, styling, the overlay's centring
  transform, the loading and error screens, and the page-count text.
- The FileReader is left out. The image is the data-URL string it produces,
  and a file chosen is applied in one step.
- At submit time the data URL is fetched into a blob. The upload carries the
  data-URL string instead.
- `FormData` and its text conversions are left out. An upload is a record of
  the same fields.
- The network is left out. The upload is a function parameter that answers
  the k-th upload with its error field. Login, routing and the document API
  are not part of this model.
- Alerts and console output are left out.
- Document preparation (`processDocument` and the effect that runs it) is not
  modelled as a process. Only its encoding step is modelled, by
  `Transcode.ArrayBufferToBase64`. Its processing and error flags are left
  out.
- Concurrency is left out: overlapping awaits and the staleness of the store
  while a submit waits on an upload. The submit reads one snapshot of the
  documents and placements.
- Numbers are reals. IEEE-754 rounding, NaN and infinities are left out.
- GetPdfCoordinates: the page rectangle is required to have positive width
  and height, which a rendered page layer has. A zero-size rectangle would
  divide by zero in the source.
- Base64.Decode: only padded text is accepted. `atob`'s tolerance of
  whitespace and missing padding is not modelled.
- DOM event propagation is left out. For example, a double-click on a drawn
  signature also reaches the page as a second click.
- The interaction methods do not require the overlay's own display condition
  (an image is loaded, outside simple mode). They accept any drawn item.
- Per-handle resize with anchor preservation and grab-offset dragging are
  suggested by the handlers' names and the handle argument but are absent
  from the code, so they are not modelled.

## Findings

| source | as written | input that shows it | evidently intended | confidence | as-written member | corrected member |
|---|---|---|---|---|---|---|
| src/components/PDF.tsx:191 | The panel calls the add handler with two arguments, but the handler at src/components/PDFView.tsx:221 takes a third, the page. The new placement's page is therefore undefined. | Load an image, then double-click a page. The new placement is drawn on no page, and a submit throws when it turns the page into text. | The placement takes the page the panel shows. | high (not executed) | PdfView.AddedPlacementIsLost | PdfView.CorrectedAddIsDrawn |
| src/components/PDFView.tsx:547-549 | A panel receives only its document's placements, and the positions it sends are positions in that list. The remove handler applies such a position to the whole store. | Latent as written: every add passes no page, so no placement is ever drawn and no index is sent (`AsWrittenStaysPageless`, `PagelessDrawsNothing`). Once the add passes a page, the store below is reachable (`TwoDocumentsReachableWhenCorrected`): documents a and b each have one placement on page 1, with a's stored first. Double-clicking b's placement sends position 0, which removes a's placement. | Remove the placement that was double-clicked. | high (not executed) | PdfView.PanelIndexHitsOtherDocument | PdfView.CorrectedRemoveTargetsClicked |
| src/components/PDFView.tsx:548 | The drag handler applies a position in the document's list to the whole store. | Latent as written, for the same reason. Once the add passes a page, with the same two documents, dragging b's placement moves a's. | Move the placement that was grabbed. | high (not executed) | PdfView.PanelIndexHitsOtherDocument | PdfView.CorrectedDragTargetsGrabbed |
