/**
 * The signing view: the state it keeps (the placement store, the page
 * trackers, the signature image and the default size) and how the calls
 * from a document panel and the view's own controls change that state.
 *
 * Each document panel receives its document's view of the store
 * (`signatures.filter(sig => sig.docId === doc._id)`) and the view's
 * handlers, bound to the document's id where the handler takes one. The
 * drag and remove handlers are not bound: they apply the panel's index to
 * the whole store.
 */
module PdfView {
  import opened Wrappers
  import opened Placements
  import opened PageTrackers
  import opened Overlay
  import opened Interaction
  import opened Submission

  datatype ViewState = ViewState(
    signatures: seq<SignaturePosition>,
    trackers: Trackers,
    signatureImage: Option<string>,
    defaultSize: Size,
    simpleMode: bool)

  /** Every placement lies on its page within the size bounds, and the
      default size is one the range inputs can produce. */
  predicate Consistent(v: ViewState) {
    AllWellPlaced(v.signatures) && SliderSize(v.defaultSize)
  }

  /** The view as first rendered: no placement, no tracker, no image. */
  function Initial(simpleMode: bool): (v: ViewState)
    ensures Consistent(v)
    ensures |v.signatures| == 0 && |v.trackers| == 0 && !ImageLoaded(v.signatureImage)
    ensures v.simpleMode == simpleMode
  {
    ViewState([], map[], None, InitialDefaultSize, simpleMode)
  }

  /** The tracker a panel receives (`pageTrackers[doc._id]`). */
  function TrackerOf(v: ViewState, docId: string): (t: Option<PageTracker>)
    ensures t.Some? <==> docId in v.trackers
    ensures t.Some? ==> t.value == v.trackers[docId]
  {
    if docId in v.trackers then Some(v.trackers[docId]) else None
  }

  /** The placements a panel receives: its document's view of the store. */
  function PanelSignatures(v: ViewState, docId: string): (r: seq<SignaturePosition>)
    ensures forall s :: s in r <==> s in v.signatures && s.docId == docId
  {
    ForDoc(v.signatures, docId)
  }

  /** A panel's placements are its document's entries in store order, each
      as many times as the store holds it: the k-th sits at store position
      GlobalIndex k, and those positions increase. */
  lemma PanelKeepsStoreOrder(v: ViewState, docId: string)
    ensures forall s :: multiset(PanelSignatures(v, docId))[s] ==
                          if s.docId == docId then multiset(v.signatures)[s] else 0
    ensures forall k: nat | k < |PanelSignatures(v, docId)| ::
              0 <= GlobalIndex(v.signatures, docId, k) < |v.signatures| &&
              v.signatures[GlobalIndex(v.signatures, docId, k)] == PanelSignatures(v, docId)[k]
    ensures forall k: nat | k + 1 < |PanelSignatures(v, docId)| ::
              GlobalIndex(v.signatures, docId, k) < GlobalIndex(v.signatures, docId, k + 1)
  {
    ForDocCounts(v.signatures, docId);
    forall k: nat | k < |PanelSignatures(v, docId)|
      ensures 0 <= GlobalIndex(v.signatures, docId, k) < |v.signatures|
      ensures v.signatures[GlobalIndex(v.signatures, docId, k)] == PanelSignatures(v, docId)[k]
    {
      GlobalIndexFindsEntry(v.signatures, docId, k);
    }
    forall k: nat | k + 1 < |PanelSignatures(v, docId)|
      ensures GlobalIndex(v.signatures, docId, k) < GlobalIndex(v.signatures, docId, k + 1)
    {
      GlobalIndexIncreases(v.signatures, docId, k);
    }
  }

  // ---------------------------------------------------------------- viewer events

  /** Events the PDF viewer reports for a document. */
  datatype ViewerEvent = DocumentLoaded(numPages: int) | PageChanged(currentPage: int)

  /** The document's tracker is updated; nothing else changes. */
  function ApplyViewerEvent(v: ViewState, docId: string, e: ViewerEvent): (r: ViewState)
    ensures r.signatures == v.signatures && r.signatureImage == v.signatureImage
    ensures r.defaultSize == v.defaultSize && r.simpleMode == v.simpleMode
    ensures forall d | d in v.trackers && d != docId :: d in r.trackers && r.trackers[d] == v.trackers[d]
    // a load is wired to the load update, a page change to the page update
    ensures e.DocumentLoaded? ==> r.trackers == DocumentLoad(v.trackers, docId, e.numPages)
    ensures e.PageChanged? ==> r.trackers == PageChange(v.trackers, v.simpleMode, docId, e.currentPage)
    ensures e.DocumentLoaded? ==> DisplayedPage(TrackerOf(r, docId)) == 1
    ensures e.PageChanged? && !v.simpleMode && e.currentPage + 1 != 0 ==>
              DisplayedPage(TrackerOf(r, docId)) == e.currentPage + 1
  {
    match e
    case DocumentLoaded(n) => v.(trackers := DocumentLoad(v.trackers, docId, n))
    case PageChanged(p) => v.(trackers := PageChange(v.trackers, v.simpleMode, docId, p))
  }

  // ---------------------------------------------------------------- panel calls

  /** A panel's call, applied as the view's handlers are written: the add
      handler is called with two arguments, so its page is absent, and the
      drag and remove handlers use the panel's index on the whole store. */
  function ApplyCall(v: ViewState, docId: string, call: Callback): (r: ViewState)
    ensures r.signatureImage == v.signatureImage && r.defaultSize == v.defaultSize
    ensures r.simpleMode == v.simpleMode
    ensures forall d | d in v.trackers && d != docId :: d in r.trackers && r.trackers[d] == v.trackers[d]
    ensures !call.MouseMoved? ==> r.trackers == v.trackers
    ensures call.MouseMoved? ==>
              r.trackers == MouseMove(v.trackers, v.simpleMode, docId, call.pdfX, call.pdfY, call.pageX, call.pageY)
    ensures call.MouseMoved? || call.Clicked? ==> r.signatures == v.signatures
    ensures |v.signatures| - 1 <= |r.signatures| <= |v.signatures| + 1
    // the panel's index goes to the store transforms unchanged, and the add gets no page
    ensures call.AddAt? ==>
              r.signatures == AddSignature(v.signatures, v.simpleMode, v.signatureImage, v.defaultSize,
                                           docId, call.pageX, call.pageY, None)
    ensures call.DragTo? ==> r.signatures == Drag(v.signatures, call.index, call.newX, call.newY)
    ensures call.RemoveAt? ==> r.signatures == Remove(v.signatures, call.index)
  {
    match call
    case MouseMoved(pdfX, pdfY, pageX, pageY) =>
      v.(trackers := MouseMove(v.trackers, v.simpleMode, docId, pdfX, pdfY, pageX, pageY))
    case Clicked(_, _, _, _) => v
    case AddAt(pageX, pageY) =>
      v.(signatures := AddSignature(v.signatures, v.simpleMode, v.signatureImage, v.defaultSize,
                                    docId, pageX, pageY, None))
    case DragTo(index, newX, newY) => v.(signatures := Drag(v.signatures, index, newX, newY))
    case RemoveAt(index) => v.(signatures := Remove(v.signatures, index))
  }

  /** A panel's call, applied as the view evidently intends: the add handler
      receives the page the panel shows, and an index from the panel is
      taken as a position in the document's view of the store. */
  function ApplyCallCorrected(v: ViewState, docId: string, call: Callback): (r: ViewState)
    ensures r.signatureImage == v.signatureImage && r.defaultSize == v.defaultSize
    ensures r.simpleMode == v.simpleMode
    ensures forall d | d in v.trackers && d != docId :: d in r.trackers && r.trackers[d] == v.trackers[d]
    ensures !call.MouseMoved? ==> r.trackers == v.trackers
    ensures call.MouseMoved? ==>
              r.trackers == MouseMove(v.trackers, v.simpleMode, docId, call.pdfX, call.pdfY, call.pageX, call.pageY)
    ensures call.MouseMoved? || call.Clicked? ==> r.signatures == v.signatures
    ensures |v.signatures| - 1 <= |r.signatures| <= |v.signatures| + 1
    // the add gets the shown page, and a panel index is mapped to its store position
    ensures call.AddAt? ==>
              r.signatures == AddSignature(v.signatures, v.simpleMode, v.signatureImage, v.defaultSize,
                                           docId, call.pageX, call.pageY, Some(DisplayedPage(TrackerOf(v, docId))))
    ensures call.DragTo? ==>
              r.signatures == if call.index < 0 then v.signatures
                              else Drag(v.signatures, GlobalIndex(v.signatures, docId, call.index), call.newX, call.newY)
    ensures call.RemoveAt? ==>
              r.signatures == if call.index < 0 then v.signatures
                              else Remove(v.signatures, GlobalIndex(v.signatures, docId, call.index))
  {
    match call
    case AddAt(pageX, pageY) =>
      v.(signatures := AddSignature(v.signatures, v.simpleMode, v.signatureImage, v.defaultSize,
                                    docId, pageX, pageY, Some(DisplayedPage(TrackerOf(v, docId)))))
    case DragTo(index, newX, newY) =>
      if index < 0 then v
      else v.(signatures := Drag(v.signatures, GlobalIndex(v.signatures, docId, index), newX, newY))
    case RemoveAt(index) =>
      if index < 0 then v
      else v.(signatures := Remove(v.signatures, GlobalIndex(v.signatures, docId, index)))
    case _ => ApplyCall(v, docId, call)
  }

  /** Both ways of applying a call keep the view consistent. */
  lemma CallsKeepConsistent(v: ViewState, docId: string, call: Callback)
    requires Consistent(v)
    ensures Consistent(ApplyCall(v, docId, call))
    ensures Consistent(ApplyCallCorrected(v, docId, call))
  {
    match call
    case AddAt(pageX, pageY) =>
      AddKeepsWellPlaced(v.signatures, v.simpleMode, v.signatureImage, v.defaultSize, docId, pageX, pageY, None);
      AddKeepsWellPlaced(v.signatures, v.simpleMode, v.signatureImage, v.defaultSize, docId, pageX, pageY,
                         Some(DisplayedPage(TrackerOf(v, docId))));
    case DragTo(index, newX, newY) =>
      DragKeepsWellPlaced(v.signatures, index, newX, newY);
      if index >= 0 {
        DragKeepsWellPlaced(v.signatures, GlobalIndex(v.signatures, docId, index), newX, newY);
      }
    case RemoveAt(index) =>
      RemoveKeepsWellPlaced(v.signatures, index);
      if index >= 0 {
        RemoveKeepsWellPlaced(v.signatures, GlobalIndex(v.signatures, docId, index));
      }
    case _ =>
  }

  /** With a single document in the store, the two ways of applying a drag
      or a remove from the panel agree. */
  lemma SingleDocumentCallsAgree(v: ViewState, docId: string, call: Callback)
    requires forall i | 0 <= i < |v.signatures| :: v.signatures[i].docId == docId
    requires call.DragTo? || call.RemoveAt?
    requires 0 <= call.index < |v.signatures|
    ensures ApplyCall(v, docId, call) == ApplyCallCorrected(v, docId, call)
  {
    SingleDocumentIndicesAgree(v.signatures, docId, call.index);
  }

  // ---------------------------------------------------------------- view controls

  /** A file picked in the signature input, as a MIME type and the data URL
      the reader produces. */
  datatype ChosenFile = ChosenFile(mimeType: string, dataUrl: string)

  /** The view's own controls. */
  datatype Control =
    | FileChosen(file: Option<ChosenFile>)  // the signature image input
    | SetDefaultWidth(width: real)          // the width range input
    | SetDefaultHeight(height: real)        // the height range input
    | ClearSignatures                       // "Clear All Signatures"
    | RemoveImage                           // "Remove Signature Image"

  /** A value the control's input can produce: the range inputs span
      0.05..0.3 and 0.03..0.2. */
  predicate ProducibleControl(c: Control) {
    match c
    case SetDefaultWidth(w) => 0.05 <= w <= 0.3
    case SetDefaultHeight(h) => 0.03 <= h <= 0.2
    case _ => true
  }

  /** The state after a control: an image file replaces the image, a
      slider replaces one dimension of the default size, the clear button
      empties the store and the remove button drops the image. */
  function ApplyControl(v: ViewState, c: Control): (r: ViewState)
    ensures r.trackers == v.trackers && r.simpleMode == v.simpleMode
    ensures c.FileChosen? ==>
              r.signatures == v.signatures && r.defaultSize == v.defaultSize &&
              (if c.file.Some? && |c.file.value.mimeType| >= 6 && c.file.value.mimeType[..6] == "image/"
               then r.signatureImage == Some(c.file.value.dataUrl)
               else r.signatureImage == v.signatureImage)
    ensures c.SetDefaultWidth? ==>
              r.signatures == v.signatures && r.signatureImage == v.signatureImage &&
              r.defaultSize == Size(c.width, v.defaultSize.height)
    ensures c.SetDefaultHeight? ==>
              r.signatures == v.signatures && r.signatureImage == v.signatureImage &&
              r.defaultSize == Size(v.defaultSize.width, c.height)
    ensures c.ClearSignatures? ==>
              |r.signatures| == 0 && r.signatureImage == v.signatureImage && r.defaultSize == v.defaultSize
    ensures c.RemoveImage? ==>
              r.signatures == v.signatures && !ImageLoaded(r.signatureImage) && r.defaultSize == v.defaultSize
  {
    match c
    case FileChosen(file) =>
      if file.Some? && |file.value.mimeType| >= 6 && file.value.mimeType[..6] == "image/"
      then v.(signatureImage := Some(file.value.dataUrl))
      else v
    case SetDefaultWidth(w) => v.(defaultSize := v.defaultSize.(width := w))
    case SetDefaultHeight(h) => v.(defaultSize := v.defaultSize.(height := h))
    case ClearSignatures => v.(signatures := ClearAll(v.signatures))
    case RemoveImage => v.(signatureImage := None)
  }

  /** The controls keep the view consistent, given values their inputs can produce. */
  lemma ControlsKeepConsistent(v: ViewState, c: Control)
    requires Consistent(v) && ProducibleControl(c)
    ensures Consistent(ApplyControl(v, c))
  {
    RemoveKeepsWellPlaced(v.signatures, 0);
  }

  /** After the image is removed, a double-click adds nothing and a submit is rejected. */
  lemma NoImageNoEffect(v: ViewState, docId: string, pageX: real, pageY: real, docs: seq<ProcessedDoc>,
                        signFile: SignFile)
    ensures var r := ApplyControl(v, RemoveImage);
            ApplyCall(r, docId, AddAt(pageX, pageY)) == r &&
            SubmitResult(docs, r.signatures, r.signatureImage, signFile) == (Rejected, [])
  {
  }

  // ---------------------------------------------------------------- finding: added placements have no page

  /** As written, a placement added by double-click carries no page: no
      panel ever draws it, whatever page it shows, and no upload is ever
      built for it. */
  lemma AddedPlacementIsLost(v: ViewState, docId: string, pageX: real, pageY: real)
    requires !v.simpleMode && ImageLoaded(v.signatureImage)
    ensures var r := ApplyCall(v, docId, AddAt(pageX, pageY));
            |r.signatures| == |v.signatures| + 1 &&
            r.signatures[|v.signatures|].docId == docId &&
            r.signatures[|v.signatures|].page.None?
    ensures var r := ApplyCall(v, docId, AddAt(pageX, pageY));
            forall t: Option<PageTracker> ::
              r.signatures[|v.signatures|] !in CurrentPageSignatures(PanelSignatures(r, docId), t)
    ensures var r := ApplyCall(v, docId, AddAt(pageX, pageY));
            forall doc: ProcessedDoc :: !StepFor(doc, r.signatures[|v.signatures|], v.signatureImage.value).Call?
  {
    var r := ApplyCall(v, docId, AddAt(pageX, pageY));
    var added := r.signatures[|v.signatures|];
    forall t: Option<PageTracker>
      ensures added !in CurrentPageSignatures(PanelSignatures(r, docId), t)
    {
      PageFilterMembers(PanelSignatures(r, docId), DisplayedPage(t));
    }
  }

  /** Corrected, the added placement carries the page the panel shows: that
      panel draws it, and a document with readable bytes uploads it. */
  lemma CorrectedAddIsDrawn(v: ViewState, docId: string, pageX: real, pageY: real)
    requires !v.simpleMode && ImageLoaded(v.signatureImage)
    ensures var r := ApplyCallCorrected(v, docId, AddAt(pageX, pageY));
            |r.signatures| == |v.signatures| + 1 &&
            r.signatures[|v.signatures|].docId == docId &&
            r.signatures[|v.signatures|] in CurrentPageSignatures(PanelSignatures(r, docId), TrackerOf(r, docId))
    ensures var r := ApplyCallCorrected(v, docId, AddAt(pageX, pageY));
            forall doc: ProcessedDoc | PdfSourceOf(doc).PdfBytes? ::
              StepFor(doc, r.signatures[|v.signatures|], v.signatureImage.value).Call?
  {
    var r := ApplyCallCorrected(v, docId, AddAt(pageX, pageY));
    var added := r.signatures[|v.signatures|];
    assert added in r.signatures;
    PageFilterMembers(PanelSignatures(r, docId), DisplayedPage(TrackerOf(r, docId)));
  }

  // ---------------------------------------------------------------- finding: index spaces

  /** Two documents, one placement each, both on page 1. */
  function TwoDocuments(): ViewState {
    ViewState([SignaturePosition(0.1, 0.1, Some(1), "a", 0.15, 0.08),
               SignaturePosition(0.4, 0.4, Some(1), "b", 0.15, 0.08)],
              map[], Some("data:image/png;base64,AA=="), InitialDefaultSize, false)
  }

  /** As written, double-clicking the only placement drawn on document b's
      panel sends index 0, and the store drops document a's placement
      instead; dragging it moves document a's placement. */
  lemma PanelIndexHitsOtherDocument()
    ensures var v := TwoDocuments();
            var panel := PanelSignatures(v, "b");
            CurrentPageSignatures(panel, TrackerOf(v, "b")) == [v.signatures[1]] &&
            OverlayIndex(panel, DisplayedPage(TrackerOf(v, "b")), 0) == 0
    ensures var v := TwoDocuments();
            ApplyCall(v, "b", RemoveAt(0)).signatures == [v.signatures[1]]
    ensures var v := TwoDocuments();
            var r := ApplyCall(v, "b", DragTo(0, 0.7, 0.7));
            r.signatures[0].docId == "a" && r.signatures[0].x == 0.7 && r.signatures[1] == v.signatures[1]
  {
    var v := TwoDocuments();
    assert ForDoc(v.signatures[1..], "b") == [v.signatures[1]];
    assert PanelSignatures(v, "b") == [v.signatures[1]];
    assert PageFilter([v.signatures[1]], 1) == [v.signatures[1]];
    assert Remove(v.signatures[1..], -1) == v.signatures[1..];
  }

  /** No placement in the store carries a page. */
  predicate NoPages(v: ViewState) {
    forall i | 0 <= i < |v.signatures| :: v.signatures[i].page.None?
  }

  /** As written, the store never gains a placement with a page: adds carry
      none, and drags, removes, clears and the other events keep pages as
      they are. From the initial view, then, every placement is page-less. */
  lemma AsWrittenStaysPageless(v: ViewState, docId: string, call: Callback, c: Control, e: ViewerEvent)
    requires NoPages(v)
    ensures NoPages(ApplyCall(v, docId, call))
    ensures NoPages(ApplyControl(v, c))
    ensures NoPages(ApplyViewerEvent(v, docId, e))
  {
    if call.RemoveAt? && 0 <= call.index < |v.signatures| {
      var r := Remove(v.signatures, call.index);
      forall i | 0 <= i < |r| ensures r[i].page.None? {
        if i < call.index { assert r[i] == v.signatures[i]; } else { assert r[i] == v.signatures[i + 1]; }
      }
    }
  }

  /** With every placement page-less no panel draws anything, whatever page
      it shows, so no panel can send a drag or a remove index. */
  lemma PagelessDrawsNothing(v: ViewState, docId: string, t: Option<PageTracker>)
    requires NoPages(v)
    ensures CurrentPageSignatures(PanelSignatures(v, docId), t) == []
  {
    var panel := PanelSignatures(v, docId);
    forall i | 0 <= i < |panel| ensures panel[i].page.None? {
      assert panel[i] in panel;
    }
    PagelessFilterEmpty(panel, DisplayedPage(t));
  }

  lemma {:induction false} PagelessFilterEmpty(sigs: seq<SignaturePosition>, p: int)
    requires forall i | 0 <= i < |sigs| :: sigs[i].page.None?
    ensures PageFilter(sigs, p) == []
  {
    if sigs != [] {
      PagelessFilterEmpty(sigs[1..], p);
    }
  }

  /** The two-document state is reached from the initial view once adds
      carry the shown page: an image is chosen, then one double-click on
      each document's page 1. */
  lemma TwoDocumentsReachableWhenCorrected()
    ensures var v0 := ApplyControl(Initial(false), FileChosen(Some(ChosenFile("image/png", "data:image/png;base64,AA=="))));
            var v1 := ApplyCallCorrected(v0, "a", AddAt(0.175, 0.86));
            ApplyCallCorrected(v1, "b", AddAt(0.475, 0.56)) == TwoDocuments()
  {
    assert "image/png"[..6] == "image/";
  }

  /** Corrected, a remove from a panel takes out exactly the placement that
      was double-clicked: the panel's view loses that one entry and every
      other document's view is unchanged. */
  lemma CorrectedRemoveTargetsClicked(v: ViewState, docId: string, item: nat)
    requires item < |CurrentPageSignatures(PanelSignatures(v, docId), TrackerOf(v, docId))|
    ensures var panel := PanelSignatures(v, docId);
            var k := OverlayIndex(panel, DisplayedPage(TrackerOf(v, docId)), item);
            var r := ApplyCallCorrected(v, docId, RemoveAt(k));
            0 <= k < |panel| &&
            panel[k] == CurrentPageSignatures(panel, TrackerOf(v, docId))[item] &&
            PanelSignatures(r, docId) == panel[..k] + panel[k + 1..] &&
            forall d | d != docId :: PanelSignatures(r, d) == PanelSignatures(v, d)
  {
    var panel := PanelSignatures(v, docId);
    var p := DisplayedPage(TrackerOf(v, docId));
    OverlayIndexCorrect(panel, p, item);
    var k := OverlayIndex(panel, p, item);
    RemoveAtGlobalIndex(v.signatures, docId, k);
    GlobalIndexFindsEntry(v.signatures, docId, k);
    var g := GlobalIndex(v.signatures, docId, k);
    assert panel[k] in panel;
    forall d | d != docId
      ensures ForDoc(Remove(v.signatures, g), d) == ForDoc(v.signatures, d)
    {
      RemoveKeepsOtherDocuments(v.signatures, g, d);
    }
  }

  /** Corrected, a drag from a panel moves exactly the placement that was
      grabbed: the panel's view has that one entry dragged and every other
      document's view is unchanged. */
  lemma CorrectedDragTargetsGrabbed(v: ViewState, docId: string, item: nat, newX: real, newY: real)
    requires item < |CurrentPageSignatures(PanelSignatures(v, docId), TrackerOf(v, docId))|
    ensures var panel := PanelSignatures(v, docId);
            var k := OverlayIndex(panel, DisplayedPage(TrackerOf(v, docId)), item);
            var r := ApplyCallCorrected(v, docId, DragTo(k, newX, newY));
            0 <= k < |panel| &&
            panel[k] == CurrentPageSignatures(panel, TrackerOf(v, docId))[item] &&
            PanelSignatures(r, docId) == Drag(panel, k, newX, newY) &&
            forall d | d != docId :: PanelSignatures(r, d) == PanelSignatures(v, d)
  {
    var panel := PanelSignatures(v, docId);
    var p := DisplayedPage(TrackerOf(v, docId));
    OverlayIndexCorrect(panel, p, item);
    var k := OverlayIndex(panel, p, item);
    DragAtGlobalIndex(v.signatures, docId, k, newX, newY);
    GlobalIndexFindsEntry(v.signatures, docId, k);
    var g := GlobalIndex(v.signatures, docId, k);
    assert panel[k] in panel;
    forall d | d != docId
      ensures ForDoc(Drag(v.signatures, g, newX, newY), d) == ForDoc(v.signatures, d)
    {
      DragKeepsOtherDocuments(v.signatures, g, d, newX, newY);
    }
  }
}
