/**
 The abstract page the bridge runs in. An element is an immutable snapshot of
 what the bridge reads from it; the document bundles the elements in document
 order with the platform facilities the bridge calls: the selector engine behind
 `querySelector`/`querySelectorAll`, the hit test behind `elementFromPoint`, and
 the window's scroll offsets.
 */
module Dom {
  import opened Wrappers
  import Text

  /** Object identity of an element: two snapshots denote the same DOM node
      exactly when their `node` fields are equal. */
  type NodeRef = nat

  /** `getBoundingClientRect()`, in viewport coordinates. */
  datatype Rect = Rect(top: real, left: real, width: real, height: real)

  /** The seven resolved style values the descriptor reports, kept as the
      platform's already-stringified output. */
  datatype ComputedStyle = ComputedStyle(
    color: string,
    backgroundColor: string,
    fontSize: string,
    padding: string,
    margin: string,
    width: string,
    height: string)

  /** `element.className`: a plain string on HTML elements, an animated-string
      object (not a string) on SVG elements. */
  datatype ClassName = ClassString(value: string) | ClassAnimated(baseVal: string)

  /** `element.parentElement`, as far as the bridge reads it: the parent's
      identity and its element children in order. */
  datatype ParentLink = ParentLink(parent: NodeRef, children: seq<NodeRef>)

  datatype Element = Element(
    node: NodeRef,
    tagName: string,
    attributes: map<string, string>,
    className: ClassName,
    textContent: string,
    parent: Option<ParentLink>,
    rect: Rect,
    style: ComputedStyle)

  /** The live document. `select(s)` is `querySelectorAll(s)` in document order,
      or `None` when the engine rejects `s` and throws; `hitTest(x, y)` is
      `elementFromPoint(x, y)` for finite coordinates. */
  datatype Document = Document(
    elements: seq<Element>,
    select: string -> Option<seq<Element>>,
    hitTest: (real, real) -> Option<Element>,
    scrollX: real,
    scrollY: real)

  /** `element.getAttribute(name)`: the value, or `None` for `null`. */
  function GetAttribute(e: Element, name: string): (r: Option<string>)
    ensures r.Some? <==> name in e.attributes
    ensures r.Some? ==> r.value == e.attributes[name]
  {
    if name in e.attributes then Some(e.attributes[name]) else None
  }

  /** `querySelector(s)`: the first match, `None` when nothing matches, and
      `None` too when the engine throws (every caller catches the fault). */
  function QueryFirst(doc: Document, selector: string): (r: Option<Element>)
    ensures r.Some? <==> doc.select(selector).Some? && |doc.select(selector).value| > 0
    ensures r.Some? ==> r.value == doc.select(selector).value[0]
  {
    match doc.select(selector)
    case None => None
    case Some(ms) => if |ms| == 0 then None else Some(ms[0])
  }

  /** `Array.prototype.indexOf`: the first position of `x`, or -1. */
  function IndexOf(s: seq<NodeRef>, x: NodeRef): (r: int)
    ensures -1 <= r < |s|
    ensures r == -1 <==> x !in s
    ensures r >= 0 ==> s[r] == x && forall k :: 0 <= k < r ==> s[k] != x
  {
    if s == [] then -1
    else if s[0] == x then 0
    else
      var r := IndexOf(s[1..], x);
      if r == -1 then -1 else r + 1
  }

  /** The class attribute as the document's class matching reads it. */
  function ClassAttribute(e: Element): string {
    match e.className
    case ClassString(s) => s
    case ClassAnimated(b) => b
  }

  /** An element carries every token of `tokens` in its class attribute. */
  predicate HasClasses(e: Element, tokens: seq<string>) {
    forall k :: 0 <= k < |tokens| ==> tokens[k] in Text.Words(ClassAttribute(e))
  }

  /** The elements, in document order, whose class-token set contains every
      token: what a compound class selector matches. */
  function ClassMatches(elements: seq<Element>, tokens: seq<string>): (r: seq<Element>)
    ensures |r| <= |elements|
    ensures forall k :: 0 <= k < |r| ==> r[k] in elements && HasClasses(r[k], tokens)
    ensures forall e :: e in elements && HasClasses(e, tokens) ==> e in r
  {
    if elements == [] then []
    else if HasClasses(elements[0], tokens) then [elements[0]] + ClassMatches(elements[1..], tokens)
    else ClassMatches(elements[1..], tokens)
  }

  /** Two different nodes that both match make the match list at least two long. */
  lemma {:induction false} TwoMatchesCounted(elements: seq<Element>, tokens: seq<string>, e: Element, f: Element)
    requires e in elements && f in elements && e.node != f.node
    requires HasClasses(e, tokens) && HasClasses(f, tokens)
    ensures |ClassMatches(elements, tokens)| >= 2
    decreases |elements|
  {
    var h := elements[0];
    if h == e {
      assert f in elements[1..];
      assert f in ClassMatches(elements[1..], tokens);
    } else if h == f {
      assert e in elements[1..];
      assert e in ClassMatches(elements[1..], tokens);
    } else {
      assert e in elements[1..] && f in elements[1..];
      TwoMatchesCounted(elements[1..], tokens, e, f);
    }
  }
}
