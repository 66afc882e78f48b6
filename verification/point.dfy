/**
 The point resolver (`detectElementAtPosition`): the platform hit test, with the
 document root and the page body filtered out.
 */
module Point {
  import opened Wrappers
  import opened Dom

  /** The two tag names that carry no meaning for the editor. */
  predicate IsPageContainer(e: Element) {
    e.tagName == "HTML" || e.tagName == "BODY"
  }

  /** `detectElementAtPosition(x, y)`. A coordinate that is not a finite number
      (`None`) makes `elementFromPoint` throw, and the fault is reported as
      `null` like a miss. */
  function DetectAt(doc: Document, x: Option<real>, y: Option<real>): (r: Option<Element>)
    ensures r.None? <==>
              || x.None? || y.None?
              || doc.hitTest(x.value, y.value).None?
              || IsPageContainer(doc.hitTest(x.value, y.value).value)
    ensures r.Some? ==> r == doc.hitTest(x.value, y.value) && !IsPageContainer(r.value)
  {
    if x.None? || y.None? then None
    else
      match doc.hitTest(x.value, y.value)
      case None => None
      case Some(e) => if IsPageContainer(e) then None else Some(e)
  }

  /** Root exclusion: a hit on the document root or the body is never reported,
      whatever else is true of the element. */
  lemma RootNeverReported(doc: Document, x: real, y: real)
    requires doc.hitTest(x, y).Some?
    requires doc.hitTest(x, y).value.tagName in {"HTML", "BODY"}
    ensures DetectAt(doc, Some(x), Some(y)).None?
  {
  }

  /** The comparison is case-sensitive: a lower-case `html` (as in an XML
      document) passes the filter. */
  lemma LowerCaseRootPasses(doc: Document, x: real, y: real)
    requires doc.hitTest(x, y).Some? && doc.hitTest(x, y).value.tagName == "html"
    ensures DetectAt(doc, Some(x), Some(y)) == doc.hitTest(x, y)
  {
  }
}
