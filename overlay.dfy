/**
 * The signature overlay of one document panel: which of the document's
 * placements are drawn on the page being shown, and which position in the
 * document's list each drawn item stands for (`signatures.indexOf(signature)`
 * finds the very object drawn, so the position is the drawn item's own).
 */
module Overlay {
  import opened Wrappers
  import opened Placements
  import opened PageTrackers

  /** The tracker holds a page number JavaScript treats as true (not 0). */
  predicate HasTruthyPage(tracker: Option<PageTracker>) {
    tracker.Some? && tracker.value.currentPage.Some? && tracker.value.currentPage.value != 0
  }

  /** `tracker?.currentPage || 1`: a missing tracker, a missing page and page 0 all read as 1. */
  function DisplayedPage(tracker: Option<PageTracker>): (p: int)
    ensures p != 0
    ensures HasTruthyPage(tracker) ==> p == tracker.value.currentPage.value
    ensures !HasTruthyPage(tracker) ==> p == 1
  {
    match tracker
    case None => 1
    case Some(t) =>
      match t.currentPage
      case None => 1
      case Some(c) => if c != 0 then c else 1
  }

  /** The placement is on page p (a placement without a page is on no page). */
  predicate OnPage(s: SignaturePosition, p: int) {
    s.page == Some(p)
  }

  /** The placements on page p, in list order. */
  function PageFilter(sigs: seq<SignaturePosition>, p: int): seq<SignaturePosition> {
    if sigs == [] then []
    else (if OnPage(sigs[0], p) then [sigs[0]] else []) + PageFilter(sigs[1..], p)
  }

  /** The position in `sigs` of the k-th placement on page p. */
  function OverlayIndex(sigs: seq<SignaturePosition>, p: int, k: nat): int {
    if sigs == [] then -1
    else if OnPage(sigs[0], p) then
      (if k == 0 then 0 else OverlayIndex(sigs[1..], p, k - 1) + 1)
    else
      OverlayIndex(sigs[1..], p, k) + 1
  }

  /** The placements drawn for the panel: those on the displayed page. */
  function CurrentPageSignatures(sigs: seq<SignaturePosition>, tracker: Option<PageTracker>)
    : (r: seq<SignaturePosition>)
    ensures |r| <= |sigs|
    ensures forall s :: s in r <==> s in sigs && OnPage(s, DisplayedPage(tracker))
  {
    PageFilterMembers(sigs, DisplayedPage(tracker));
    PageFilter(sigs, DisplayedPage(tracker))
  }

  /** The filter keeps exactly the placements on page p. */
  lemma {:induction false} PageFilterMembers(sigs: seq<SignaturePosition>, p: int)
    ensures |PageFilter(sigs, p)| <= |sigs|
    ensures forall s :: s in PageFilter(sigs, p) <==> s in sigs && OnPage(s, p)
  {
    if sigs != [] {
      PageFilterMembers(sigs[1..], p);
      assert sigs == [sigs[0]] + sigs[1..];
    }
  }

  /** Each drawn item stands for a valid position holding that very placement,
      and later items stand for later positions: the filter keeps list order. */
  lemma {:induction false} OverlayIndexCorrect(sigs: seq<SignaturePosition>, p: int, k: nat)
    requires k < |PageFilter(sigs, p)|
    ensures 0 <= OverlayIndex(sigs, p, k) < |sigs|
    ensures sigs[OverlayIndex(sigs, p, k)] == PageFilter(sigs, p)[k]
    ensures k + 1 < |PageFilter(sigs, p)| ==> OverlayIndex(sigs, p, k) < OverlayIndex(sigs, p, k + 1)
  {
    var head := if OnPage(sigs[0], p) then [sigs[0]] else [];
    assert PageFilter(sigs, p) == head + PageFilter(sigs[1..], p);
    if OnPage(sigs[0], p) {
      if k > 0 {
        OverlayIndexCorrect(sigs[1..], p, k - 1);
      } else if k + 1 < |PageFilter(sigs, p)| {
        OverlayIndexCorrect(sigs[1..], p, 0);
      }
    } else {
      OverlayIndexCorrect(sigs[1..], p, k);
    }
  }

  /** Every placement on page p is drawn: each such position is some item's position. */
  lemma {:induction false} OverlayIndexComplete(sigs: seq<SignaturePosition>, p: int, i: nat)
    requires i < |sigs| && OnPage(sigs[i], p)
    ensures exists k: nat :: k < |PageFilter(sigs, p)| && OverlayIndex(sigs, p, k) == i
  {
    var head := if OnPage(sigs[0], p) then [sigs[0]] else [];
    assert PageFilter(sigs, p) == head + PageFilter(sigs[1..], p);
    if i == 0 {
      assert OverlayIndex(sigs, p, 0) == 0;
    } else {
      OverlayIndexComplete(sigs[1..], p, i - 1);
      var k: nat :| k < |PageFilter(sigs[1..], p)| && OverlayIndex(sigs[1..], p, k) == i - 1;
      if OnPage(sigs[0], p) {
        assert OverlayIndex(sigs, p, k + 1) == i;
      } else {
        assert OverlayIndex(sigs, p, k) == i;
      }
    }
  }

  /** After a load the panel shows page 1; after a later page change to a
      zero-based page n it shows page n + 1. */
  lemma DisplayedPageFollowsViewer(ts: Trackers, docId: string, numPages: int, reported: nat)
    ensures DisplayedPage(Some(DocumentLoad(ts, docId, numPages)[docId])) == 1
    ensures DisplayedPage(Some(PageChange(DocumentLoad(ts, docId, numPages), false, docId, reported)[docId]))
            == reported + 1
  {
  }
}
