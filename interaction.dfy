/**
 * The interaction state of one document panel and its pointer handlers.
 *
 * The panel keeps four mutable fields: the signature being dragged, the grab
 * offset recorded when the drag began, the signature being resized and the
 * corner handle grabbed. Handlers update those fields and call back into the
 * signing view; each handler here returns the callbacks it makes, in order.
 *
 * As the panel is written, the grab offset and both resize fields are set but
 * never read: a move drags the signature to the raw pointer position, and no
 * pointer gesture ever resizes.
 */
module Interaction {
  import opened Wrappers
  import opened Placements
  import opened PageTrackers
  import opened PdfCoordinates
  import opened Overlay

  /** The four resize handles. */
  datatype Handle = SE | SW | NE | NW

  datatype Offset = Offset(x: real, y: real)

  /** A call from the panel to the view's handlers. */
  datatype Callback =
    | MouseMoved(pdfX: real, pdfY: real, pageX: real, pageY: real)
    | Clicked(pdfX: real, pdfY: real, pageX: real, pageY: real)
    | AddAt(pageX: real, pageY: real)
    | DragTo(index: int, newX: real, newY: real)
    | RemoveAt(index: int)

  class DocumentPanel {
    const simpleMode: bool
    var draggedSignature: Option<int>
    var dragOffset: Offset
    var resizingSignature: Option<int>
    var resizeHandle: Option<Handle>

    /** No gesture in progress. */
    predicate Idle()
      reads this
    {
      draggedSignature == None && dragOffset == Offset(0.0, 0.0)
    }

    constructor (simpleMode: bool)
      ensures this.simpleMode == simpleMode
      ensures Idle()
      ensures resizingSignature == None && resizeHandle == None
    {
      this.simpleMode := simpleMode;
      draggedSignature := None;
      dragOffset := Offset(0.0, 0.0);
      resizingSignature := None;
      resizeHandle := None;
    }

    /** Pointer move over the panel: reports the mapped position and, while a
        signature is being dragged, drags it to the raw pointer position. */
    method HandleMouseMove(e: Pointer, layout: Layout) returns (calls: seq<Callback>)
      requires Rendered(layout)
      ensures var m := GetPdfCoordinates(e, layout);
              calls == if simpleMode || m.None? then []
                       else [MouseMoved(m.value.pdfX, m.value.pdfY, m.value.pageX, m.value.pageY)] +
                            if draggedSignature.Some?
                            then [DragTo(draggedSignature.value, m.value.pageX, m.value.pageY)]
                            else []
      // a drag call is made exactly when a drag is in progress and the pointer is on the page
      ensures (exists c :: c in calls && c.DragTo?) <==>
                !simpleMode && draggedSignature.Some? && GetPdfCoordinates(e, layout).Some?
      // its target is the pointer's page position: no grab offset is subtracted
      ensures forall c | c in calls && c.DragTo? ::
                Some(c.index) == draggedSignature &&
                c.newX == GetPdfCoordinates(e, layout).value.pageX &&
                c.newY == GetPdfCoordinates(e, layout).value.pageY &&
                0.0 <= c.newX <= 1.0 && 0.0 <= c.newY <= 1.0
    {
      calls := [];
      if simpleMode {
        return;
      }
      var coords := GetPdfCoordinates(e, layout);
      if coords.Some? {
        calls := calls + [MouseMoved(coords.value.pdfX, coords.value.pdfY, coords.value.pageX, coords.value.pageY)];
      }
      if draggedSignature.Some? {
        var coords' := GetPdfCoordinates(e, layout);
        if coords'.Some? {
          calls := calls + [DragTo(draggedSignature.value, coords'.value.pageX, coords'.value.pageY)];
          assert calls[|calls| - 1] in calls;
        }
      }
    }

    /** Click on the panel: reports the mapped position and, on the second
        click of a double-click with an image loaded, asks for a new signature
        at that point (with no page number). */
    method HandleClick(e: Pointer, layout: Layout, detail: int, signatureImage: Option<string>)
      returns (calls: seq<Callback>)
      requires Rendered(layout)
      ensures var m := GetPdfCoordinates(e, layout);
              calls == if simpleMode || m.None? then []
                       else [Clicked(m.value.pdfX, m.value.pdfY, m.value.pageX, m.value.pageY)] +
                            if detail == 2 && ImageLoaded(signatureImage)
                            then [AddAt(m.value.pageX, m.value.pageY)]
                            else []
      ensures (exists c :: c in calls && c.AddAt?) <==>
                !simpleMode && detail == 2 && ImageLoaded(signatureImage) &&
                GetPdfCoordinates(e, layout).Some?
    {
      calls := [];
      if simpleMode {
        return;
      }
      var coords := GetPdfCoordinates(e, layout);
      if coords.Some? {
        calls := [Clicked(coords.value.pdfX, coords.value.pdfY, coords.value.pageX, coords.value.pageY)];
        if detail == 2 && ImageLoaded(signatureImage) {
          calls := calls + [AddAt(coords.value.pageX, coords.value.pageY)];
          assert calls[1] in calls;
        }
      }
    }

    /** Mouse-down on a resize handle of the `item`-th drawn signature: records
        its position in the document's list and the handle, nothing else.
        `indexOf` finds the drawn object itself, so the position is the
        drawn item's own even when another entry holds an equal value. */
    method HandleResizeMouseDown(signatures: seq<SignaturePosition>, tracker: Option<PageTracker>,
                                 item: nat, handle: Handle)
      requires item < |CurrentPageSignatures(signatures, tracker)|
      modifies this
      ensures resizingSignature.Some? && resizeHandle == Some(handle)
      ensures 0 <= resizingSignature.value < |signatures|
      ensures signatures[resizingSignature.value] == CurrentPageSignatures(signatures, tracker)[item]
      // the drawn item's own position, not merely one holding an equal value
      ensures resizingSignature == Some(OverlayIndex(signatures, DisplayedPage(tracker), item))
      ensures draggedSignature == old(draggedSignature) && dragOffset == old(dragOffset)
    {
      OverlayIndexCorrect(signatures, DisplayedPage(tracker), item);
      var index := OverlayIndex(signatures, DisplayedPage(tracker), item);
      resizingSignature := Some(index);
      resizeHandle := Some(handle);
    }

    /** Mouse-down on the `item`-th drawn signature: starts a drag of it and,
        when the pointer maps on to the page, records the grab offset. */
    method HandleSignatureMouseDown(e: Pointer, layout: Layout, signatures: seq<SignaturePosition>,
                                    tracker: Option<PageTracker>, item: nat)
      requires Rendered(layout)
      requires item < |CurrentPageSignatures(signatures, tracker)|
      modifies this
      ensures draggedSignature.Some? && 0 <= draggedSignature.value < |signatures|
      ensures signatures[draggedSignature.value] == CurrentPageSignatures(signatures, tracker)[item]
      ensures draggedSignature == Some(OverlayIndex(signatures, DisplayedPage(tracker), item))
      ensures var m := GetPdfCoordinates(e, layout);
              var s := signatures[draggedSignature.value];
              dragOffset == if m.Some? then Offset(m.value.pageX - s.x, m.value.pageY - s.y)
                            else old(dragOffset)
      ensures resizingSignature == old(resizingSignature) && resizeHandle == old(resizeHandle)
    {
      OverlayIndexCorrect(signatures, DisplayedPage(tracker), item);
      var index := OverlayIndex(signatures, DisplayedPage(tracker), item);
      draggedSignature := Some(index);
      var coords := GetPdfCoordinates(e, layout);
      if coords.Some? {
        var signature := signatures[index];
        dragOffset := Offset(coords.value.pageX - signature.x, coords.value.pageY - signature.y);
      }
    }

    /** Mouse-up anywhere over the viewer: ends the drag; the resize fields stay. */
    method HandleMouseUp()
      modifies this
      ensures Idle()
      ensures resizingSignature == old(resizingSignature) && resizeHandle == old(resizeHandle)
    {
      draggedSignature := None;
      dragOffset := Offset(0.0, 0.0);
    }

    /** Double-click on the `item`-th drawn signature: asks the view to remove
        the position that signature has in the document's list. */
    method HandleSignatureDoubleClick(signatures: seq<SignaturePosition>, tracker: Option<PageTracker>,
                                      item: nat)
      returns (calls: seq<Callback>)
      requires item < |CurrentPageSignatures(signatures, tracker)|
      ensures |calls| == 1 && calls[0].RemoveAt?
      ensures 0 <= calls[0].index < |signatures|
      ensures signatures[calls[0].index] == CurrentPageSignatures(signatures, tracker)[item]
      ensures calls[0].index == OverlayIndex(signatures, DisplayedPage(tracker), item)
    {
      OverlayIndexCorrect(signatures, DisplayedPage(tracker), item);
      calls := [RemoveAt(OverlayIndex(signatures, DisplayedPage(tracker), item))];
    }
  }
}
