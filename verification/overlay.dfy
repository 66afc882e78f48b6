/**
 The overlay manager: one lazily created highlight rectangle, repositioned and
 shown by `highlightElement`, hidden (never removed) by `clearHighlight`.

 The script creates the rectangle with `position: fixed` but places it at the
 element's viewport rectangle plus the scroll offset, i.e. in document
 coordinates. A fixed box is placed in viewport coordinates, so on a scrolled
 page it lands one scroll offset away from the element
 (`FixedOverlayMisplacedWhenScrolled`). The corrected manager keeps the same
 geometry and creates the box with `position: absolute`, which is placed in
 document coordinates (`HighlightCoversElement`).
 */
module Overlay {
  import opened Wrappers
  import opened Dom

  /** The CSS positioning scheme the rectangle is created with. */
  datatype Positioning = Fixed | Absolute

  /** `overlay.style.display`: never set, `'block'`, or `'none'`. */
  datatype Display = DisplayUnset | Shown | Hidden

  datatype Geometry = Geometry(top: real, left: real, width: real, height: real)

  datatype Box = Box(positioning: Positioning, display: Display, geometry: Option<Geometry>)

  /** The bridge's one piece of mutable state: the `highlightOverlay` reference
      and the number of rectangles the bridge has appended to the page body. */
  datatype State = State(overlay: Option<Box>, inserted: nat)

  const Initial: State := State(None, 0)

  /** The rectangle in the page is the one the reference points to. */
  predicate Valid(st: State) {
    st.inserted == if st.overlay.Some? then 1 else 0
  }

  /** `createHighlightOverlay()`: the existing rectangle, or a fresh one appended
      to the body and remembered. */
  function CreateWith(scheme: Positioning, st: State): (r: (State, Box))
    ensures st.overlay.Some? ==> r == (st, st.overlay.value)
    ensures st.overlay.None? ==> r.0.overlay == Some(r.1) && r.0.inserted == st.inserted + 1
    ensures st.overlay.None? ==> r.1.display == DisplayUnset && r.1.geometry == None && r.1.positioning == scheme
  {
    match st.overlay
    case Some(box) => (st, box)
    case None =>
      var box := Box(scheme, DisplayUnset, None);
      (State(Some(box), st.inserted + 1), box)
  }

  /** The overlay geometry for an element: its viewport rectangle shifted by the
      scroll offset. */
  function PageGeometry(doc: Document, rect: Rect): Geometry {
    Geometry(rect.top + doc.scrollY, rect.left + doc.scrollX, rect.width, rect.height)
  }

  /** `highlightElement(selector)`: a selector that matches nothing, or that the
      engine rejects, changes nothing; otherwise the (possibly new) rectangle is
      shown over the first match. */
  function HighlightWith(scheme: Positioning, st: State, doc: Document, selector: string): (r: State)
    ensures QueryFirst(doc, selector).None? ==> r == st
    ensures QueryFirst(doc, selector).Some? ==>
              && r.overlay.Some?
              && r.overlay.value.display == Shown
              && r.overlay.value.geometry == Some(PageGeometry(doc, QueryFirst(doc, selector).value.rect))
              && r.overlay.value.positioning == (if st.overlay.Some? then st.overlay.value.positioning else scheme)
              && r.inserted == (if st.overlay.Some? then st.inserted else st.inserted + 1)
  {
    match QueryFirst(doc, selector)
    case None => st
    case Some(element) =>
      var (created, box) := CreateWith(scheme, st);
      created.(overlay := Some(box.(display := Shown, geometry := Some(PageGeometry(doc, element.rect)))))
  }

  /** The corrected manager: rectangles are positioned absolutely, and a shown
      rectangle appears over the element's viewport rectangle. */
  function Highlight(st: State, doc: Document, selector: string): (r: State)
    ensures QueryFirst(doc, selector).Some? && PositionedWith(st, Absolute) ==>
              var rect := QueryFirst(doc, selector).value.rect;
              && r.overlay.Some?
              && OnScreen(r.overlay.value, doc) == Some(Geometry(rect.top, rect.left, rect.width, rect.height))
  {
    HighlightWith(Absolute, st, doc, selector)
  }

  /** The manager exactly as the script writes it: a fixed rectangle, which
      appears at the element's viewport rectangle shifted by the scroll offset. */
  function HighlightAsWritten(st: State, doc: Document, selector: string): (r: State)
    ensures QueryFirst(doc, selector).Some? && PositionedWith(st, Fixed) ==>
              var rect := QueryFirst(doc, selector).value.rect;
              && r.overlay.Some?
              && OnScreen(r.overlay.value, doc)
              == Some(Geometry(rect.top + doc.scrollY, rect.left + doc.scrollX, rect.width, rect.height))
  {
    HighlightWith(Fixed, st, doc, selector)
  }

  /** The remembered rectangle, if any, was created with `scheme`. */
  predicate PositionedWith(st: State, scheme: Positioning) {
    st.overlay.Some? ==> st.overlay.value.positioning == scheme
  }

  /** `clearHighlight()`: hides the rectangle if there is one; creates nothing. */
  function Clear(st: State): (r: State)
    ensures st.overlay.None? ==> r == st
    ensures st.overlay.Some? ==>
              && r.overlay.Some?
              && r.overlay.value.display == Hidden
              && r.overlay.value.geometry == st.overlay.value.geometry
              && r.overlay.value.positioning == st.overlay.value.positioning
    ensures r.inserted == st.inserted
  {
    match st.overlay
    case None => st
    case Some(box) => st.(overlay := Some(box.(display := Hidden)))
  }

  /** Where a box appears in the viewport: a fixed box at its own offsets, an
      absolute one (a child of the body) shifted back by the scroll offset. */
  function OnScreen(box: Box, doc: Document): Option<Geometry> {
    match box.geometry
    case None => None
    case Some(g) =>
      match box.positioning
      case Fixed => Some(g)
      case Absolute => Some(Geometry(g.top - doc.scrollY, g.left - doc.scrollX, g.width, g.height))
  }

  // ---------------------------------------------------------------- properties

  /** Lazy creation is idempotent: a second call returns the same rectangle and
      appends nothing. */
  lemma CreateIdempotent(scheme: Positioning, st: State)
    ensures var (st1, box1) := CreateWith(scheme, st);
            CreateWith(scheme, st1) == (st1, box1)
  {
  }

  /** Every operation keeps at most one rectangle in the page, it is the
      remembered one, and it keeps the scheme it was created with. */
  lemma OperationsKeepSingleOverlay(scheme: Positioning, st: State, doc: Document, selector: string)
    requires Valid(st) && PositionedWith(st, scheme)
    ensures Valid(CreateWith(scheme, st).0) && PositionedWith(CreateWith(scheme, st).0, scheme)
    ensures Valid(HighlightWith(scheme, st, doc, selector)) && PositionedWith(HighlightWith(scheme, st, doc, selector), scheme)
    ensures Valid(Clear(st)) && PositionedWith(Clear(st), scheme)
  {
  }

  /** Clearing before any highlight changes nothing and creates nothing. */
  lemma ClearWithoutCreate()
    ensures Clear(Initial) == Initial
    ensures Clear(Initial).overlay.None?
  {
  }

  /** Each highlight recomputes the geometry from scratch: whatever the prior
      rectangle looked like, the result is the same, so repeating the call is a
      no-op. */
  lemma HighlightForgetsPriorGeometry(scheme: Positioning, st1: State, st2: State, doc: Document, selector: string)
    requires QueryFirst(doc, selector).Some?
    requires st1.overlay.Some? && st2.overlay.Some?
    requires st1.overlay.value.positioning == st2.overlay.value.positioning
    ensures HighlightWith(scheme, st1, doc, selector).overlay == HighlightWith(scheme, st2, doc, selector).overlay
  {
  }

  lemma HighlightIdempotent(scheme: Positioning, st: State, doc: Document, selector: string)
    ensures HighlightWith(scheme, HighlightWith(scheme, st, doc, selector), doc, selector)
         == HighlightWith(scheme, st, doc, selector)
  {
  }

  /** With the corrected positioning the shown rectangle covers the element's
      viewport rectangle exactly, however far the page is scrolled. */
  lemma HighlightCoversElement(st: State, doc: Document, selector: string)
    requires PositionedWith(st, Absolute)
    requires QueryFirst(doc, selector).Some?
    ensures var rect := QueryFirst(doc, selector).value.rect;
            OnScreen(Highlight(st, doc, selector).overlay.value, doc)
            == Some(Geometry(rect.top, rect.left, rect.width, rect.height))
  {
  }

  /** As written, on a page scrolled by a non-zero amount the fixed rectangle is
      drawn that far below (or beside) the element it should cover. */
  lemma FixedOverlayMisplacedWhenScrolled(st: State, doc: Document, selector: string)
    requires PositionedWith(st, Fixed)
    requires QueryFirst(doc, selector).Some?
    ensures var rect := QueryFirst(doc, selector).value.rect;
            var shown := OnScreen(HighlightAsWritten(st, doc, selector).overlay.value, doc).value;
            && shown.top - rect.top == doc.scrollY
            && shown.left - rect.left == doc.scrollX
  {
  }

  /** The as-written rectangle on a page scrolled by 100: an element whose
      viewport top is 50 gets a rectangle at viewport top 150. The corrected
      rectangle appears at 50. */
  lemma ScrolledPageCounterexample()
    ensures var e := Element(1, "DIV", map["id" := "card"], ClassString(""), "", None,
                             Rect(50.0, 10.0, 200.0, 80.0), ComputedStyle("", "", "", "", "", "", ""));
            var doc := Document([e], s => if s == "#card" then Some([e]) else Some([]), (x, y) => None, 0.0, 100.0);
            && OnScreen(HighlightAsWritten(Initial, doc, "#card").overlay.value, doc).value.top == 150.0
            && OnScreen(Highlight(Initial, doc, "#card").overlay.value, doc).value.top == 50.0
  {
    var e := Element(1, "DIV", map["id" := "card"], ClassString(""), "", None,
                     Rect(50.0, 10.0, 200.0, 80.0), ComputedStyle("", "", "", "", "", "", ""));
    var doc := Document([e], s => if s == "#card" then Some([e]) else Some([]), (x, y) => None, 0.0, 100.0);
    assert QueryFirst(doc, "#card") == Some(e);
  }
}
