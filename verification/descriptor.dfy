/**
 The descriptor extractor (`getElementInfo`): resolves a selector to its first
 match and snapshots the element's tag, class name, trimmed text, seven
 computed style values, viewport rectangle and two provenance attributes.
 */
module Descriptor {
  import opened Wrappers
  import opened Dom
  import Text

  datatype Descriptor = Descriptor(
    selector: string,
    tagName: string,
    className: ClassName,
    textContent: string,
    computedStyles: ComputedStyle,
    boundingRect: Rect,
    sourceFile: Option<string>,
    sourceLine: Option<string>)

  /** `element.textContent?.trim() || ''`: an element's text content is never
      null, and an all-white-space text trims to `''` either way. */
  function TrimmedText(e: Element): (r: string)
    ensures r == Text.Trim(e.textContent)
    ensures r == [] || (!Text.IsSpace(r[0]) && !Text.IsSpace(r[|r| - 1]))
    ensures Text.AllSpace(e.textContent) <==> r == []
  {
    var t := Text.Trim(e.textContent);
    Text.TrimEmptyIffAllSpace(e.textContent);
    if t == [] then [] else t
  }

  /** `getElementInfo(selector)`: `None` when nothing matches or the engine
      rejects the selector; otherwise the snapshot of the first match. */
  function Describe(doc: Document, selector: string): (r: Option<Descriptor>)
    ensures r.None? <==> QueryFirst(doc, selector).None?
    ensures r.Some? ==>
              var e := QueryFirst(doc, selector).value;
              && r.value.selector == selector
              && r.value.tagName == e.tagName
              && r.value.className == e.className
              && r.value.textContent == TrimmedText(e)
              && r.value.computedStyles == e.style
              && r.value.boundingRect == e.rect
              && (r.value.sourceFile.Some? <==> "data-source-file" in e.attributes)
              && (r.value.sourceLine.Some? <==> "data-source-line" in e.attributes)
              && r.value.sourceFile == GetAttribute(e, "data-source-file")
              && r.value.sourceLine == GetAttribute(e, "data-source-line")
  {
    match QueryFirst(doc, selector)
    case None => None
    case Some(e) =>
      Some(Descriptor(
        selector,
        e.tagName,
        e.className,
        TrimmedText(e),
        e.style,
        e.rect,
        GetAttribute(e, "data-source-file"),
        GetAttribute(e, "data-source-line")))
  }

  /** Descriptor completeness: without provenance attributes both fields are
      `null` and every other field is still filled from the element. */
  lemma ProvenanceOptional(doc: Document, selector: string)
    requires QueryFirst(doc, selector).Some?
    requires "data-source-file" !in QueryFirst(doc, selector).value.attributes
    requires "data-source-line" !in QueryFirst(doc, selector).value.attributes
    ensures Describe(doc, selector).Some?
    ensures Describe(doc, selector).value.sourceFile.None?
    ensures Describe(doc, selector).value.sourceLine.None?
  {
  }

  /** Unlike the identity attributes, an empty provenance attribute is reported
      as the empty string, not as absent. */
  lemma EmptyProvenanceKept(doc: Document, selector: string)
    requires QueryFirst(doc, selector).Some?
    requires QueryFirst(doc, selector).value.attributes == map["data-source-line" := ""]
    ensures Describe(doc, selector).value.sourceLine == Some("")
    ensures Describe(doc, selector).value.sourceFile == None
  {
  }

  /** Stale selector: a selector that matches nothing yields no descriptor. */
  lemma StaleSelectorHasNoDescriptor(doc: Document, selector: string)
    requires doc.select(selector) == Some([]) || doc.select(selector).None?
    ensures Describe(doc, selector).None?
  {
  }

  /** The reported text is already normalised: trimming it again changes
      nothing. */
  lemma TextIsTrimmed(doc: Document, selector: string)
    requires Describe(doc, selector).Some?
    ensures Text.Trim(Describe(doc, selector).value.textContent) == Describe(doc, selector).value.textContent
  {
    Text.TrimIdempotent(Describe(doc, selector).value.textContent);
  }
}
