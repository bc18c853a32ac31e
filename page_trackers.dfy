/**
 * The per-document page trackers of the signing view: a record keyed by
 * document id, updated by the viewer's document-load and page-change events
 * and by pointer moves over a page.
 *
 * Every field is optional: an update spreads the previous entry, and an entry
 * first created by a page change or a pointer move has only the fields that
 * update wrote.
 */
module PageTrackers {
  import opened Wrappers

  datatype PageTracker = PageTracker(
    docId: Option<string>,
    currentPage: Option<int>,
    totalPages: Option<int>,
    mouseX: Option<real>,
    mouseY: Option<real>,
    pageX: Option<real>,
    pageY: Option<real>)

  type Trackers = map<string, PageTracker>

  /** What spreading a missing entry yields: no fields at all. */
  const Blank: PageTracker := PageTracker(None, None, None, None, None, None, None)

  /** The entry being spread by an update. */
  function Previous(ts: Trackers, docId: string): PageTracker {
    if docId in ts then ts[docId] else Blank
  }

  /** The fields a document-load event writes all hold the load values. */
  predicate JustLoaded(t: PageTracker, docId: string, numPages: int) {
    t.docId == Some(docId) && t.currentPage == Some(1) && t.totalPages == Some(numPages) &&
    t.mouseX == Some(0.0) && t.mouseY == Some(0.0) && t.pageX == Some(0.0) && t.pageY == Some(0.0)
  }

  /** Document load: the document's entry is (re)written with page 1, the
      reported page count and zeroed pointer fields. */
  function DocumentLoad(ts: Trackers, docId: string, numPages: int): (r: Trackers)
    ensures r.Keys == ts.Keys + {docId}
    ensures forall d | d in ts && d != docId :: r[d] == ts[d]
    ensures JustLoaded(r[docId], docId, numPages)
  {
    ts[docId := Previous(ts, docId).(
      docId := Some(docId),
      currentPage := Some(1),
      totalPages := Some(numPages),
      mouseX := Some(0.0),
      mouseY := Some(0.0),
      pageX := Some(0.0),
      pageY := Some(0.0))]
  }

  /** Page change: the viewer reports a zero-based page; the entry records it
      one-based. Ignored in simple mode. */
  function PageChange(ts: Trackers, simpleMode: bool, docId: string, reported: int): (r: Trackers)
    ensures simpleMode ==> r == ts
    ensures !simpleMode ==> r.Keys == ts.Keys + {docId}
    ensures !simpleMode ==> forall d | d in ts && d != docId :: r[d] == ts[d]
    ensures !simpleMode ==> r[docId].currentPage == Some(reported + 1)
    ensures !simpleMode ==> r[docId] == Previous(ts, docId).(currentPage := r[docId].currentPage)
  {
    if simpleMode then ts
    else ts[docId := Previous(ts, docId).(currentPage := Some(reported + 1))]
  }

  /** Pointer move over a page: the four pointer fields are replaced. Ignored
      in simple mode. */
  function MouseMove(ts: Trackers, simpleMode: bool, docId: string,
                     pdfX: real, pdfY: real, pageX: real, pageY: real): (r: Trackers)
    ensures simpleMode ==> r == ts
    ensures !simpleMode ==> r.Keys == ts.Keys + {docId}
    ensures !simpleMode ==> forall d | d in ts && d != docId :: r[d] == ts[d]
    ensures !simpleMode ==>
              r[docId].mouseX == Some(pdfX) && r[docId].mouseY == Some(pdfY) &&
              r[docId].pageX == Some(pageX) && r[docId].pageY == Some(pageY)
    ensures !simpleMode ==>
              r[docId] == Previous(ts, docId).(mouseX := r[docId].mouseX, mouseY := r[docId].mouseY,
                                               pageX := r[docId].pageX, pageY := r[docId].pageY)
  {
    if simpleMode then ts
    else ts[docId := Previous(ts, docId).(
      mouseX := Some(pdfX), mouseY := Some(pdfY), pageX := Some(pageX), pageY := Some(pageY))]
  }

  /** A page change and a pointer move touch disjoint fields, so their order
      does not matter. */
  lemma PageChangeMouseMoveCommute(ts: Trackers, simpleMode: bool, docA: string, reported: int,
                                   docB: string, pdfX: real, pdfY: real, pageX: real, pageY: real)
    ensures PageChange(MouseMove(ts, simpleMode, docB, pdfX, pdfY, pageX, pageY), simpleMode, docA, reported)
         == MouseMove(PageChange(ts, simpleMode, docA, reported), simpleMode, docB, pdfX, pdfY, pageX, pageY)
  {
    var left := PageChange(MouseMove(ts, simpleMode, docB, pdfX, pdfY, pageX, pageY), simpleMode, docA, reported);
    var right := MouseMove(PageChange(ts, simpleMode, docA, reported), simpleMode, docB, pdfX, pdfY, pageX, pageY);
    if !simpleMode {
      assert left.Keys == right.Keys;
      forall d | d in left.Keys ensures left[d] == right[d] {
      }
    }
  }

  /** A document load overwrites every field, so whatever page changes and
      pointer moves came before it on that document leave no trace. */
  lemma LoadForgetsEarlierEvents(ts: Trackers, simpleMode: bool, docId: string, reported: int,
                                 pdfX: real, pdfY: real, pageX: real, pageY: real, numPages: int)
    ensures DocumentLoad(PageChange(MouseMove(ts, simpleMode, docId, pdfX, pdfY, pageX, pageY),
                                    simpleMode, docId, reported), docId, numPages)
         == DocumentLoad(ts, docId, numPages)
  {
    var left := DocumentLoad(PageChange(MouseMove(ts, simpleMode, docId, pdfX, pdfY, pageX, pageY),
                                        simpleMode, docId, reported), docId, numPages);
    var right := DocumentLoad(ts, docId, numPages);
    assert left.Keys == right.Keys;
    forall d | d in left.Keys ensures left[d] == right[d] {
    }
  }

  /** A pointer move never changes the page fields. */
  lemma MouseMoveKeepsPages(ts: Trackers, simpleMode: bool, docId: string,
                            pdfX: real, pdfY: real, pageX: real, pageY: real)
    requires docId in ts
    ensures var r := MouseMove(ts, simpleMode, docId, pdfX, pdfY, pageX, pageY);
            r[docId].currentPage == ts[docId].currentPage && r[docId].totalPages == ts[docId].totalPages
  {
  }
}
