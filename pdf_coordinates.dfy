/**
 * The coordinate mapper of the document panel: a pointer position in client
 * pixels becomes a pixel offset from the rendered page's corner (pdfX, pdfY)
 * and a page fraction (pageX, pageY), or nothing when the pointer is off the
 * page or the page is not rendered.
 */
module PdfCoordinates {
  import opened Wrappers
  import opened JsMath

  /** A pointer event's client coordinates. */
  datatype Pointer = Pointer(clientX: real, clientY: real)

  /** A bounding client rectangle. */
  datatype Rect = Rect(left: real, top: real, width: real, height: real)

  /** What the panel finds in the document at event time: no container yet,
      a container without a rendered page layer, or the page layer's rectangle. */
  datatype Layout = NoContainer | NoPageLayer | PageLayer(rect: Rect)

  /** A rendered page has a non-empty rectangle. */
  predicate Rendered(layout: Layout) {
    layout.PageLayer? ==> layout.rect.width > 0.0 && layout.rect.height > 0.0
  }

  datatype Mapping = Mapping(pdfX: real, pdfY: real, pageX: real, pageY: real)

  /** A quotient of a value by a larger positive one lies in [0, 1]. */
  lemma FractionInUnit(a: real, b: real)
    requires 0.0 <= a <= b && b > 0.0
    ensures 0.0 <= a / b <= 1.0
  {
    assert a / b * b == a;
  }

  /** Maps a pointer to page coordinates. */
  function GetPdfCoordinates(e: Pointer, layout: Layout): (r: Option<Mapping>)
    requires Rendered(layout)
    ensures !layout.PageLayer? ==> r.None?
    ensures layout.PageLayer? ==>
              (r.Some? <==> 0.0 <= e.clientX - layout.rect.left <= layout.rect.width &&
                            0.0 <= e.clientY - layout.rect.top <= layout.rect.height)
    ensures r.Some? ==>
              r.value.pdfX == e.clientX - layout.rect.left &&
              r.value.pdfY == e.clientY - layout.rect.top
    ensures r.Some? ==> 0.0 <= r.value.pageX <= 1.0 && 0.0 <= r.value.pageY <= 1.0
    // the clamp is the identity inside the gate
    ensures r.Some? ==>
              r.value.pageX == r.value.pdfX / layout.rect.width &&
              r.value.pageY == r.value.pdfY / layout.rect.height
  {
    match layout
    case NoContainer => None
    case NoPageLayer => None
    case PageLayer(pageRect) =>
      var pdfX := e.clientX - pageRect.left;
      var pdfY := e.clientY - pageRect.top;
      var pageX := ClampTo(0.0, 1.0, pdfX / pageRect.width);
      var pageY := ClampTo(0.0, 1.0, pdfY / pageRect.height);
      if 0.0 <= pdfX <= pageRect.width && 0.0 <= pdfY <= pageRect.height then
        FractionInUnit(pdfX, pageRect.width);
        FractionInUnit(pdfY, pageRect.height);
        Some(Mapping(pdfX, pdfY, pageX, pageY))
      else
        None
  }
}
