/**
 * The placement store of the signing view: an ordered list of signature
 * placements and the transforms the view hands to its state setter when a
 * signature is added, dragged, resized, removed or cleared.
 *
 * Positions and sizes are fractions of the page (0..1), modelled as reals.
 */
module Placements {
  import opened Wrappers
  import opened JsMath

  /** One placed signature. `page` is optional: a placement made through the
      two-argument add callback receives no page number. */
  datatype SignaturePosition = SignaturePosition(
    x: real,
    y: real,
    page: Option<int>,
    docId: string,
    width: real,
    height: real)

  /** The default size given to new placements. */
  datatype Size = Size(width: real, height: real)

  const InitialDefaultSize: Size := Size(0.15, 0.08)

  /** Bounds the resize transform applies. */
  const MinWidth: real := 0.05
  const MinHeight: real := 0.03
  const MaxWidth: real := 0.5
  const MaxHeight: real := 0.3

  /** The sizes the two default-size range inputs can produce. */
  predicate SliderSize(s: Size) {
    0.05 <= s.width <= 0.3 && 0.03 <= s.height <= 0.2
  }

  /** A signature image is loaded: the data-URL string is neither null nor empty. */
  predicate ImageLoaded(image: Option<string>) {
    image.Some? && image.value != ""
  }

  /** The placement lies entirely on its page. */
  predicate Contained(s: SignaturePosition) {
    0.0 <= s.x && 0.0 <= s.y && s.x + s.width <= 1.0 && s.y + s.height <= 1.0
  }

  /** On the page and within the minimum and maximum sizes. */
  predicate WellPlaced(s: SignaturePosition) {
    Contained(s) && MinWidth <= s.width <= MaxWidth && MinHeight <= s.height <= MaxHeight
  }

  predicate AllWellPlaced(sigs: seq<SignaturePosition>) {
    forall i | 0 <= i < |sigs| :: WellPlaced(sigs[i])
  }

  // ---------------------------------------------------------------- add

  /** The placement created for a double-click at page point (pageX, pageY):
      the y coordinate is inverted, the box is centred on the point and then
      clamped so that it starts on the page and ends before its far edge. */
  function NewPlacement(docId: string, pageX: real, pageY: real, page: Option<int>, size: Size)
    : (s: SignaturePosition)
    ensures s.docId == docId && s.page == page
    ensures s.width == size.width && s.height == size.height
    ensures 0.0 <= s.x && 0.0 <= s.y
    ensures size.width <= 1.0 ==> s.x + s.width <= 1.0
    ensures size.height <= 1.0 ==> s.y + s.height <= 1.0
    // centred on the point whenever the centred box fits
    ensures size.width / 2.0 <= pageX <= 1.0 - size.width / 2.0 ==> s.x + size.width / 2.0 == pageX
    ensures size.height / 2.0 <= 1.0 - pageY <= 1.0 - size.height / 2.0 ==>
              s.y + size.height / 2.0 == 1.0 - pageY
    // pushed against the near edge when the centred box would start before it
    ensures pageX < size.width / 2.0 ==> s.x == 0.0
    ensures 1.0 - pageY < size.height / 2.0 ==> s.y == 0.0
    // pushed back from the far edge when the centred box would end after it
    ensures size.width <= 1.0 && pageX > 1.0 - size.width / 2.0 ==> s.x == 1.0 - size.width
    ensures size.height <= 1.0 && pageY < size.height / 2.0 ==> s.y == 1.0 - size.height
  {
    var invertedPageY := 1.0 - pageY;
    var adjustedX := ClampTo(0.0, 1.0 - size.width, pageX - size.width / 2.0);
    var adjustedY := ClampTo(0.0, 1.0 - size.height, invertedPageY - size.height / 2.0);
    SignaturePosition(adjustedX, adjustedY, page, docId, size.width, size.height)
  }

  /** The add transform: nothing in simple mode or without an image, otherwise
      the new placement is appended after every existing one. */
  function AddSignature(sigs: seq<SignaturePosition>, simpleMode: bool, image: Option<string>,
                        size: Size, docId: string, pageX: real, pageY: real, page: Option<int>)
    : (r: seq<SignaturePosition>)
    ensures simpleMode || !ImageLoaded(image) ==> r == sigs
    ensures !simpleMode && ImageLoaded(image) ==>
              |r| == |sigs| + 1 && r[..|sigs|] == sigs &&
              r[|sigs|] == NewPlacement(docId, pageX, pageY, page, size)
  {
    if simpleMode || !ImageLoaded(image) then sigs
    else sigs + [NewPlacement(docId, pageX, pageY, page, size)]
  }

  // ---------------------------------------------------------------- drag

  /** One placement moved towards (newX, newY), kept on the page given its size. */
  function Dragged(sig: SignaturePosition, newX: real, newY: real): (d: SignaturePosition)
    ensures d == sig.(x := d.x, y := d.y)
    ensures 0.0 <= d.x && 0.0 <= d.y
    ensures sig.width <= 1.0 ==> d.x + d.width <= 1.0
    ensures sig.height <= 1.0 ==> d.y + d.height <= 1.0
    ensures 0.0 <= newX <= 1.0 - sig.width ==> d.x == newX
    ensures 0.0 <= newY <= 1.0 - sig.height ==> d.y == newY
    // a target beyond an edge is stopped at that edge
    ensures newX < 0.0 ==> d.x == 0.0
    ensures newY < 0.0 ==> d.y == 0.0
    ensures sig.width <= 1.0 && newX > 1.0 - sig.width ==> d.x == 1.0 - sig.width
    ensures sig.height <= 1.0 && newY > 1.0 - sig.height ==> d.y == 1.0 - sig.height
  {
    sig.(x := ClampTo(0.0, 1.0 - sig.width, newX), y := ClampTo(0.0, 1.0 - sig.height, newY))
  }

  /** The drag transform: the entry at `index` is moved, every other entry is kept. */
  function Drag(sigs: seq<SignaturePosition>, index: int, newX: real, newY: real)
    : (r: seq<SignaturePosition>)
    ensures |r| == |sigs|
    ensures forall i | 0 <= i < |sigs| && i != index :: r[i] == sigs[i]
    ensures 0 <= index < |sigs| ==> r[index] == Dragged(sigs[index], newX, newY)
    ensures !(0 <= index < |sigs|) ==> r == sigs
  {
    seq(|sigs|, i requires 0 <= i < |sigs| =>
      if i == index then Dragged(sigs[i], newX, newY) else sigs[i])
  }

  // ---------------------------------------------------------------- resize

  /** One placement resized towards (newWidth, newHeight): at least the minimum
      size, and at most the maximum size or the room left before the page edge. */
  function Resized(sig: SignaturePosition, newWidth: real, newHeight: real): (d: SignaturePosition)
    ensures d == sig.(width := d.width, height := d.height)
    ensures d.width >= MinWidth && d.height >= MinHeight
    ensures d.width <= Max(MinWidth, Min(MaxWidth, 1.0 - sig.x))
    ensures d.height <= Max(MinHeight, Min(MaxHeight, 1.0 - sig.y))
    ensures MinWidth <= newWidth <= Min(MaxWidth, 1.0 - sig.x) ==> d.width == newWidth
    ensures MinHeight <= newHeight <= Min(MaxHeight, 1.0 - sig.y) ==> d.height == newHeight
    // a request below the minimum gets the minimum, one above the cap gets the cap
    ensures newWidth < MinWidth ==> d.width == MinWidth
    ensures newHeight < MinHeight ==> d.height == MinHeight
    ensures newWidth > Min(MaxWidth, 1.0 - sig.x) ==> d.width == Max(MinWidth, Min(MaxWidth, 1.0 - sig.x))
    ensures newHeight > Min(MaxHeight, 1.0 - sig.y) ==> d.height == Max(MinHeight, Min(MaxHeight, 1.0 - sig.y))
  {
    var maxWidth := Min(MaxWidth, 1.0 - sig.x);
    var maxHeight := Min(MaxHeight, 1.0 - sig.y);
    sig.(width := Max(MinWidth, Min(maxWidth, newWidth)),
         height := Max(MinHeight, Min(maxHeight, newHeight)))
  }

  /** The resize transform: the entry at `index` is resized, every other entry is kept. */
  function Resize(sigs: seq<SignaturePosition>, index: int, newWidth: real, newHeight: real)
    : (r: seq<SignaturePosition>)
    ensures |r| == |sigs|
    ensures forall i | 0 <= i < |sigs| && i != index :: r[i] == sigs[i]
    ensures 0 <= index < |sigs| ==> r[index] == Resized(sigs[index], newWidth, newHeight)
    ensures !(0 <= index < |sigs|) ==> r == sigs
  {
    seq(|sigs|, i requires 0 <= i < |sigs| =>
      if i == index then Resized(sigs[i], newWidth, newHeight) else sigs[i])
  }

  // ---------------------------------------------------------------- remove and clear

  /** The remove transform, a filter on positions: keeps every entry whose
      position differs from `index`. */
  function Remove(sigs: seq<SignaturePosition>, index: int): (r: seq<SignaturePosition>)
    ensures 0 <= index < |sigs| ==> r == sigs[..index] + sigs[index + 1..]
    ensures !(0 <= index < |sigs|) ==> r == sigs
  {
    if sigs == [] then []
    else (if index == 0 then [] else [sigs[0]]) + Remove(sigs[1..], index - 1)
  }

  /** The clear-all transform: the store becomes empty. */
  function ClearAll(sigs: seq<SignaturePosition>): (r: seq<SignaturePosition>)
    ensures |r| == 0
  {
    []
  }

  // ---------------------------------------------------------------- per-document view

  /** The entries of one document, in store order (`signatures.filter(sig => sig.docId === id)`). */
  function ForDoc(sigs: seq<SignaturePosition>, docId: string): (r: seq<SignaturePosition>)
    ensures |r| <= |sigs|
    ensures forall s :: s in r <==> s in sigs && s.docId == docId
  {
    if sigs == [] then []
    else (if sigs[0].docId == docId then [sigs[0]] else []) + ForDoc(sigs[1..], docId)
  }

  /** Position in the whole store of the k-th entry of one document's view. */
  function GlobalIndex(sigs: seq<SignaturePosition>, docId: string, k: nat): int
  {
    if sigs == [] then -1
    else if sigs[0].docId == docId then
      (if k == 0 then 0 else var j := GlobalIndex(sigs[1..], docId, k - 1); if j < 0 then j else j + 1)
    else
      var j := GlobalIndex(sigs[1..], docId, k); if j < 0 then j else j + 1
  }

  // ---------------------------------------------------------------- lemmas

  /** With a slider-range default size, adding keeps every placement on the page. */
  lemma AddKeepsWellPlaced(sigs: seq<SignaturePosition>, simpleMode: bool, image: Option<string>,
                           size: Size, docId: string, pageX: real, pageY: real, page: Option<int>)
    requires AllWellPlaced(sigs) && SliderSize(size)
    ensures AllWellPlaced(AddSignature(sigs, simpleMode, image, size, docId, pageX, pageY, page))
  {
    var r := AddSignature(sigs, simpleMode, image, size, docId, pageX, pageY, page);
    forall i | 0 <= i < |r| ensures WellPlaced(r[i]) {
      if i < |sigs| {
        assert r[i] == r[..|sigs|][i];
      }
    }
  }

  /** Dragging keeps every placement on the page and keeps the sizes. */
  lemma DragKeepsWellPlaced(sigs: seq<SignaturePosition>, index: int, newX: real, newY: real)
    requires AllWellPlaced(sigs)
    ensures AllWellPlaced(Drag(sigs, index, newX, newY))
  {
  }

  /** Resizing keeps every placement on the page: the room left before the
      edge is at least the current size, hence at least the minimum size. */
  lemma ResizeKeepsWellPlaced(sigs: seq<SignaturePosition>, index: int, newWidth: real, newHeight: real)
    requires AllWellPlaced(sigs)
    ensures AllWellPlaced(Resize(sigs, index, newWidth, newHeight))
  {
    var r := Resize(sigs, index, newWidth, newHeight);
    forall i | 0 <= i < |r| ensures WellPlaced(r[i]) {
      if i == index {
        var s := sigs[i];
        assert Min(MaxWidth, 1.0 - s.x) >= MinWidth;
        assert Min(MaxHeight, 1.0 - s.y) >= MinHeight;
      }
    }
  }

  /** Removing and clearing keep every remaining placement on the page. */
  lemma RemoveKeepsWellPlaced(sigs: seq<SignaturePosition>, index: int)
    requires AllWellPlaced(sigs)
    ensures AllWellPlaced(Remove(sigs, index))
    ensures AllWellPlaced(ClearAll(sigs))
  {
    var r := Remove(sigs, index);
    if 0 <= index < |sigs| {
      forall i | 0 <= i < |r| ensures WellPlaced(r[i]) {
        if i < index { assert r[i] == sigs[i]; } else { assert r[i] == sigs[i + 1]; }
      }
    }
  }

  /** Repeating the same drag changes nothing more. */
  lemma DragIdempotent(sigs: seq<SignaturePosition>, index: int, newX: real, newY: real)
    ensures Drag(Drag(sigs, index, newX, newY), index, newX, newY) == Drag(sigs, index, newX, newY)
  {
  }

  /** Repeating the same resize changes nothing more (x and y are untouched). */
  lemma ResizeIdempotent(sigs: seq<SignaturePosition>, index: int, newWidth: real, newHeight: real)
    ensures Resize(Resize(sigs, index, newWidth, newHeight), index, newWidth, newHeight)
         == Resize(sigs, index, newWidth, newHeight)
  {
  }

  /** Removing a valid index takes exactly one element out: the removed
      element's multiplicity drops by one and the length by one. */
  lemma {:induction false} RemoveDropsOne(sigs: seq<SignaturePosition>, index: int)
    requires 0 <= index < |sigs|
    ensures |Remove(sigs, index)| == |sigs| - 1
    ensures multiset(Remove(sigs, index)) + multiset{sigs[index]} == multiset(sigs)
  {
    assert sigs == sigs[..index] + [sigs[index]] + sigs[index + 1..];
  }

  /** The k-th entry of a document's view sits at GlobalIndex in the whole store. */
  lemma {:induction false} GlobalIndexFindsEntry(sigs: seq<SignaturePosition>, docId: string, k: nat)
    requires k < |ForDoc(sigs, docId)|
    ensures 0 <= GlobalIndex(sigs, docId, k) < |sigs|
    ensures sigs[GlobalIndex(sigs, docId, k)] == ForDoc(sigs, docId)[k]
    decreases |sigs|, 1
  {
    var mine := sigs[0].docId == docId;
    if mine && k == 0 {
      assert ForDoc(sigs, docId) == [sigs[0]] + ForDoc(sigs[1..], docId);
    } else {
      GlobalIndexFindsEntryStep(sigs, docId, k, if mine then k - 1 else k);
    }
  }

  /** The inductive step: the entry is the k'-th of the rest's view, one position further on. */
  lemma {:induction false} GlobalIndexFindsEntryStep(sigs: seq<SignaturePosition>, docId: string, k: nat, k': nat)
    requires k < |ForDoc(sigs, docId)|
    requires sigs[0].docId == docId ==> k > 0 && k' == k - 1
    requires sigs[0].docId != docId ==> k' == k
    ensures 0 <= GlobalIndex(sigs, docId, k) < |sigs|
    ensures sigs[GlobalIndex(sigs, docId, k)] == ForDoc(sigs, docId)[k]
    decreases |sigs|, 0
  {
    var head := if sigs[0].docId == docId then [sigs[0]] else [];
    var rest := ForDoc(sigs[1..], docId);
    assert ForDoc(sigs, docId) == head + rest;
    assert (head + rest)[k] == rest[k'];
    GlobalIndexFindsEntry(sigs[1..], docId, k');
    var j := GlobalIndex(sigs[1..], docId, k');
    assert GlobalIndex(sigs, docId, k) == j + 1;
    assert sigs[j + 1] == sigs[1..][j];
  }

  /** Later entries of a document's view sit at later store positions: the
      view keeps the store's order. */
  lemma {:induction false} GlobalIndexIncreases(sigs: seq<SignaturePosition>, docId: string, k: nat)
    requires k + 1 < |ForDoc(sigs, docId)|
    ensures GlobalIndex(sigs, docId, k) < GlobalIndex(sigs, docId, k + 1)
  {
    var head := if sigs[0].docId == docId then [sigs[0]] else [];
    assert ForDoc(sigs, docId) == head + ForDoc(sigs[1..], docId);
    if sigs[0].docId == docId {
      GlobalIndexFindsEntry(sigs[1..], docId, k);
      if k > 0 {
        GlobalIndexFindsEntry(sigs[1..], docId, k - 1);
        GlobalIndexIncreases(sigs[1..], docId, k - 1);
      }
    } else {
      GlobalIndexFindsEntry(sigs[1..], docId, k);
      GlobalIndexFindsEntry(sigs[1..], docId, k + 1);
      GlobalIndexIncreases(sigs[1..], docId, k);
    }
  }

  /** Every store entry of the document appears in its view: its store
      position is the position of some view entry. */
  lemma {:induction false} GlobalIndexComplete(sigs: seq<SignaturePosition>, docId: string, i: nat)
    requires i < |sigs| && sigs[i].docId == docId
    ensures exists k: nat :: k < |ForDoc(sigs, docId)| && GlobalIndex(sigs, docId, k) == i
  {
    var head := if sigs[0].docId == docId then [sigs[0]] else [];
    assert ForDoc(sigs, docId) == head + ForDoc(sigs[1..], docId);
    if i == 0 {
      assert GlobalIndex(sigs, docId, 0) == 0;
    } else {
      GlobalIndexComplete(sigs[1..], docId, i - 1);
      var k: nat :| k < |ForDoc(sigs[1..], docId)| && GlobalIndex(sigs[1..], docId, k) == i - 1;
      if sigs[0].docId == docId {
        assert GlobalIndex(sigs, docId, k + 1) == i;
      } else {
        assert GlobalIndex(sigs, docId, k) == i;
      }
    }
  }

  /** The view holds each entry of the document exactly as often as the
      store does, and nothing else. */
  lemma {:induction false} ForDocCounts(sigs: seq<SignaturePosition>, docId: string)
    ensures forall s :: multiset(ForDoc(sigs, docId))[s] == if s.docId == docId then multiset(sigs)[s] else 0
  {
    if sigs != [] {
      ForDocCounts(sigs[1..], docId);
      var head := if sigs[0].docId == docId then [sigs[0]] else [];
      assert ForDoc(sigs, docId) == head + ForDoc(sigs[1..], docId);
      assert sigs == [sigs[0]] + sigs[1..];
    }
  }

  /** With a single document in the store its view is the whole store, so a
      position in the view is the same position in the store. */
  lemma {:induction false} SingleDocumentIndicesAgree(sigs: seq<SignaturePosition>, docId: string, k: nat)
    requires forall i | 0 <= i < |sigs| :: sigs[i].docId == docId
    ensures ForDoc(sigs, docId) == sigs
    ensures k < |sigs| ==> GlobalIndex(sigs, docId, k) == k
  {
    if sigs != [] {
      SingleDocumentIndicesAgree(sigs[1..], docId, if k > 0 then k - 1 else 0);
    }
  }

  /** Removing the store entry that is the k-th of a document's view takes
      exactly that entry out of the view. */
  lemma {:induction false} RemoveAtGlobalIndex(sigs: seq<SignaturePosition>, docId: string, k: nat)
    requires k < |ForDoc(sigs, docId)|
    ensures ForDoc(Remove(sigs, GlobalIndex(sigs, docId, k)), docId) == Remove(ForDoc(sigs, docId), k)
    decreases |sigs|, 1
  {
    var mine := sigs[0].docId == docId;
    var k' := if mine then k - 1 else k;
    if mine && k == 0 {
      assert ForDoc(sigs, docId) == [sigs[0]] + ForDoc(sigs[1..], docId);
      assert Remove(sigs, 0) == sigs[1..];
    } else {
      RemoveAtGlobalIndexStep(sigs, docId, k, k');
    }
  }

  /** The inductive step: the first entry is kept, and the entry removed is
      the k'-th of the rest's view. */
  lemma {:induction false} RemoveAtGlobalIndexStep(sigs: seq<SignaturePosition>, docId: string, k: nat, k': nat)
    requires k < |ForDoc(sigs, docId)|
    requires sigs[0].docId == docId ==> k > 0 && k' == k - 1
    requires sigs[0].docId != docId ==> k' == k
    ensures ForDoc(Remove(sigs, GlobalIndex(sigs, docId, k)), docId) == Remove(ForDoc(sigs, docId), k)
    decreases |sigs|, 0
  {
    var head := if sigs[0].docId == docId then [sigs[0]] else [];
    assert ForDoc(sigs, docId) == head + ForDoc(sigs[1..], docId);
    GlobalIndexFindsEntry(sigs[1..], docId, k');
    var g := GlobalIndex(sigs[1..], docId, k');
    assert GlobalIndex(sigs, docId, k) == g + 1;
    RemoveAtGlobalIndex(sigs[1..], docId, k');
    var removed := Remove(sigs[1..], g);
    assert Remove(sigs, g + 1) == [sigs[0]] + removed;
    assert ([sigs[0]] + removed)[0] == sigs[0] && ([sigs[0]] + removed)[1..] == removed;
    assert ForDoc([sigs[0]] + removed, docId) == head + ForDoc(removed, docId);
    var rest := ForDoc(sigs[1..], docId);
    if head == [] {
      assert head + rest == rest;
      assert head + ForDoc(removed, docId) == ForDoc(removed, docId);
    } else {
      var view := head + rest;
      assert view[0] == sigs[0] && view[1..] == rest;
      assert Remove(view, k) == [sigs[0]] + Remove(rest, k');
    }
  }

  /** Removing a store entry of one document leaves another document's view as it was. */
  lemma {:induction false} RemoveKeepsOtherDocuments(sigs: seq<SignaturePosition>, index: int, d: string)
    requires 0 <= index < |sigs| && sigs[index].docId != d
    ensures ForDoc(Remove(sigs, index), d) == ForDoc(sigs, d)
  {
    if index == 0 {
      assert Remove(sigs, 0) == sigs[1..];
    } else {
      RemoveKeepsOtherDocuments(sigs[1..], index - 1, d);
      assert Remove(sigs, index) == [sigs[0]] + Remove(sigs[1..], index - 1);
    }
  }

  /** Dragging a non-empty store splits into the first entry and the rest. */
  lemma DragCons(sigs: seq<SignaturePosition>, index: int, newX: real, newY: real)
    requires sigs != []
    ensures Drag(sigs, index, newX, newY) ==
              [if index == 0 then Dragged(sigs[0], newX, newY) else sigs[0]] + Drag(sigs[1..], index - 1, newX, newY)
  {
    var r := Drag(sigs, index, newX, newY);
    var r' := [if index == 0 then Dragged(sigs[0], newX, newY) else sigs[0]] + Drag(sigs[1..], index - 1, newX, newY);
    forall i | 0 <= i < |r| ensures r[i] == r'[i] {
      if i > 0 {
        assert r'[i] == Drag(sigs[1..], index - 1, newX, newY)[i - 1];
      }
    }
  }

  /** Dragging the store entry that is the k-th of a document's view drags
      exactly that entry of the view. */
  lemma {:induction false} DragAtGlobalIndex(sigs: seq<SignaturePosition>, docId: string, k: nat,
                                             newX: real, newY: real)
    requires k < |ForDoc(sigs, docId)|
    ensures ForDoc(Drag(sigs, GlobalIndex(sigs, docId, k), newX, newY), docId) ==
              Drag(ForDoc(sigs, docId), k, newX, newY)
    decreases |sigs|, 1
  {
    var mine := sigs[0].docId == docId;
    var rest := ForDoc(sigs[1..], docId);
    if mine && k == 0 {
      var view := [sigs[0]] + rest;
      assert ForDoc(sigs, docId) == view;
      DragCons(sigs, 0, newX, newY);
      DragCons(view, 0, newX, newY);
      assert Drag(sigs[1..], -1, newX, newY) == sigs[1..];
      assert view[1..] == rest;
      assert Drag(rest, -1, newX, newY) == rest;
      var moved := Dragged(sigs[0], newX, newY);
      assert ([moved] + sigs[1..])[0] == moved && ([moved] + sigs[1..])[1..] == sigs[1..];
    } else {
      DragAtGlobalIndexStep(sigs, docId, k, if mine then k - 1 else k, newX, newY);
    }
  }

  /** The inductive step: the first entry is kept, and the entry dragged is
      the k'-th of the rest's view. */
  lemma {:induction false} DragAtGlobalIndexStep(sigs: seq<SignaturePosition>, docId: string, k: nat, k': nat,
                                                 newX: real, newY: real)
    requires k < |ForDoc(sigs, docId)|
    requires sigs[0].docId == docId ==> k > 0 && k' == k - 1
    requires sigs[0].docId != docId ==> k' == k
    ensures ForDoc(Drag(sigs, GlobalIndex(sigs, docId, k), newX, newY), docId) ==
              Drag(ForDoc(sigs, docId), k, newX, newY)
    decreases |sigs|, 0
  {
    var head := if sigs[0].docId == docId then [sigs[0]] else [];
    assert ForDoc(sigs, docId) == head + ForDoc(sigs[1..], docId);
    GlobalIndexFindsEntry(sigs[1..], docId, k');
    var g := GlobalIndex(sigs[1..], docId, k');
    assert GlobalIndex(sigs, docId, k) == g + 1;
    DragAtGlobalIndex(sigs[1..], docId, k', newX, newY);
    DragCons(sigs, g + 1, newX, newY);
    var dragged := Drag(sigs[1..], g, newX, newY);
    assert ([sigs[0]] + dragged)[0] == sigs[0] && ([sigs[0]] + dragged)[1..] == dragged;
    assert ForDoc([sigs[0]] + dragged, docId) == head + ForDoc(dragged, docId);
    var rest := ForDoc(sigs[1..], docId);
    if head == [] {
      assert head + rest == rest;
      assert head + ForDoc(dragged, docId) == ForDoc(dragged, docId);
    } else {
      var view := head + rest;
      assert view[0] == sigs[0] && view[1..] == rest;
      DragCons(view, k, newX, newY);
    }
  }

  /** Dragging a store entry of one document leaves another document's view as it was. */
  lemma {:induction false} DragKeepsOtherDocuments(sigs: seq<SignaturePosition>, index: int, d: string,
                                                   newX: real, newY: real)
    requires 0 <= index < |sigs| && sigs[index].docId != d
    ensures ForDoc(Drag(sigs, index, newX, newY), d) == ForDoc(sigs, d)
  {
    DragCons(sigs, index, newX, newY);
    var r := Drag(sigs, index, newX, newY);
    var tail := Drag(sigs[1..], index - 1, newX, newY);
    assert r[0] == (if index == 0 then Dragged(sigs[0], newX, newY) else sigs[0]) && r[1..] == tail;
    if index == 0 {
      assert tail == sigs[1..];
    } else {
      DragKeepsOtherDocuments(sigs[1..], index - 1, d, newX, newY);
    }
  }
}
