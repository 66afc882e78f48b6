/**
 The message dispatcher: the `message` listener's `switch`, as a pure step from
 the overlay state and one inbound message to the next overlay state and at
 most one outbound message for the parent frame.

 The dispatcher is parameterised by the selector guard and the overlay
 positioning. `AsWritten` is the script; `Corrected` applies both corrections
 described in the overlay and selector modules.
 */
module Bridge {
  import opened Wrappers
  import opened Dom
  import Overlay
  import Selector
  import Point
  import Descriptor

  /** The structured-clone values a message field can carry, as far as strict
      equality and echoing need them. */
  datatype JsValue = Undefined | Null | Bool(b: bool) | Number(n: real) | Str(s: string)

  /** The five fields destructured from `event.data`. A coordinate that is not a
      finite number is `None`. */
  datatype Inbound = Inbound(
    kind: JsValue,
    selector: string,
    x: Option<real>,
    y: Option<real>,
    action: JsValue)

  datatype Outbound =
    | ElementInfo(data: Descriptor.Descriptor)
    | ElementHovered(selector: string)
    | ElementClicked(selector: string)
    | NoElementDetected(action: JsValue)

  const HighlightTag := Str("VISUAL_EDIT_HIGHLIGHT")
  const ClearTag := Str("VISUAL_EDIT_CLEAR_HIGHLIGHT")
  const InfoTag := Str("VISUAL_EDIT_REQUEST_INFO")
  const DetectTag := Str("VISUAL_EDIT_DETECT_ELEMENT")

  predicate KnownKind(v: JsValue) {
    v == HighlightTag || v == ClearTag || v == InfoTag || v == DetectTag
  }

  /** The selector guard and the overlay positioning the bridge runs with. */
  datatype Variant = Variant(guard: Selector.Guard, scheme: Overlay.Positioning)

  /** The script as written: a count-only class guard and a fixed rectangle. */
  const AsWritten := Variant(Selector.CountOnly, Overlay.Fixed)

  /** Both corrections: the class selector must re-resolve to the element, and
      the rectangle is positioned absolutely. */
  const Corrected := Variant(Selector.CountAndIdentity, Overlay.Absolute)

  /** An element was found at the point and named by a truthy (non-empty)
      selector string. */
  predicate Named(guard: Selector.Guard, doc: Document, x: Option<real>, y: Option<real>) {
    && Point.DetectAt(doc, x, y).Some?
    && Selector.Synthesize(guard, doc, Point.DetectAt(doc, x, y).value).Some?
    && Selector.Synthesize(guard, doc, Point.DetectAt(doc, x, y).value).value != ""
  }

  /** The `VISUAL_EDIT_DETECT_ELEMENT` branch: resolve the point, name the
      element, and route by `action === 'hover'`; a miss, a failed synthesis or
      an empty (falsy) selector is reported with the action echoed. */
  function DetectReply(guard: Selector.Guard, doc: Document, x: Option<real>, y: Option<real>, action: JsValue): (r: Outbound)
    ensures r.ElementHovered? <==> action == Str("hover") && Named(guard, doc, x, y)
    ensures r.ElementClicked? <==> action != Str("hover") && Named(guard, doc, x, y)
    ensures (r.ElementHovered? || r.ElementClicked?) ==>
              r.selector == Selector.Synthesize(guard, doc, Point.DetectAt(doc, x, y).value).value
    ensures r.NoElementDetected? <==> !Named(guard, doc, x, y)
    ensures r.NoElementDetected? ==> r.action == action
  {
    match Point.DetectAt(doc, x, y)
    case None => NoElementDetected(action)
    case Some(element) =>
      match Selector.Synthesize(guard, doc, element)
      case None => NoElementDetected(action)
      case Some(s) =>
        if s == "" then NoElementDetected(action)
        else if action == Str("hover") then ElementHovered(s)
        else ElementClicked(s)
  }

  /** Only an element with an empty tag name, no identity attribute, no usable
      class and no parent is named by the empty string, so the truthiness test
      on the selector filters nothing else. */
  lemma EmptySelectorOnlyForEmptyTag(guard: Selector.Guard, doc: Document, e: Element)
    requires Selector.Synthesize(guard, doc, e) == Some("")
    ensures e.tagName == "" && e.parent.None? && Selector.NoIdentity(e)
  {
    Selector.RenderEmpty(Selector.GenerateWith(guard, doc, e).value);
  }

  /** `postMessage` structured-clones the descriptor. Its class name is cloneable
      only as a string: an SVG element's `SVGAnimatedString` makes the call
      throw, and the listener sends nothing. */
  predicate Cloneable(d: Descriptor.Descriptor) {
    d.className.ClassString?
  }

  /** One run of the listener. */
  function Handle(v: Variant, st: Overlay.State, doc: Document, msg: Inbound): (r: (Overlay.State, Option<Outbound>))
    // only the overlay messages touch the overlay, and they never reply
    ensures msg.kind != HighlightTag && msg.kind != ClearTag ==> r.0 == st
    ensures msg.kind == HighlightTag ==> r == (Overlay.HighlightWith(v.scheme, st, doc, msg.selector), None)
    ensures msg.kind == ClearTag ==> r == (Overlay.Clear(st), None)
    // unknown kinds are ignored
    ensures !KnownKind(msg.kind) ==> r.1.None?
    // an info request replies exactly when the element is found and its
    // descriptor survives the structured clone
    ensures msg.kind == InfoTag ==>
              && (r.1.Some? <==> Descriptor.Describe(doc, msg.selector).Some?
                                 && Cloneable(Descriptor.Describe(doc, msg.selector).value))
              && (r.1.Some? ==> r.1.value == ElementInfo(Descriptor.Describe(doc, msg.selector).value))
    // a detect request always replies, routed by the detect branch
    ensures msg.kind == DetectTag ==> r == (st, Some(DetectReply(v.guard, doc, msg.x, msg.y, msg.action)))
  {
    if msg.kind == HighlightTag then
      (Overlay.HighlightWith(v.scheme, st, doc, msg.selector), None)
    else if msg.kind == ClearTag then
      (Overlay.Clear(st), None)
    else if msg.kind == InfoTag then
      match Descriptor.Describe(doc, msg.selector)
      case None => (st, None)
      case Some(info) => if Cloneable(info) then (st, Some(ElementInfo(info))) else (st, None)
    else if msg.kind == DetectTag then
      (st, Some(DetectReply(v.guard, doc, msg.x, msg.y, msg.action)))
    else
      (st, None)
  }

  /** The listener over a stream of messages, with the replies in handling order. */
  function Run(v: Variant, st: Overlay.State, doc: Document, msgs: seq<Inbound>): (r: (Overlay.State, seq<Outbound>))
    ensures |r.1| <= |msgs|
    decreases |msgs|
  {
    if msgs == [] then (st, [])
    else
      var step := Handle(v, st, doc, msgs[0]);
      var rest := Run(v, step.0, doc, msgs[1..]);
      (rest.0, Emitted(step.1) + rest.1)
  }

  /** The replies one step posts: none, or exactly its reply. */
  function Emitted(out: Option<Outbound>): (r: seq<Outbound>)
    ensures |r| <= 1 && (r == [] <==> out.None?)
    ensures out.Some? ==> r[0] == out.value
  {
    if out.Some? then [out.value] else []
  }

  // ---------------------------------------------------------------- properties

  /** However many messages arrive, the page holds at most one rectangle, it is
      the remembered one, and it keeps the variant's positioning. */
  lemma {:induction false} RunKeepsSingleOverlay(v: Variant, st: Overlay.State, doc: Document, msgs: seq<Inbound>)
    requires Overlay.Valid(st) && Overlay.PositionedWith(st, v.scheme)
    ensures Overlay.Valid(Run(v, st, doc, msgs).0) && Overlay.PositionedWith(Run(v, st, doc, msgs).0, v.scheme)
    ensures Run(v, st, doc, msgs).0.inserted <= 1
    decreases |msgs|
  {
    if msgs != [] {
      var st1 := Handle(v, st, doc, msgs[0]).0;
      Overlay.OperationsKeepSingleOverlay(v.scheme, st, doc, msgs[0].selector);
      RunKeepsSingleOverlay(v, st1, doc, msgs[1..]);
    }
  }

  /** Messages other than a highlight never create the rectangle: from a fresh
      page they leave the overlay state exactly as it was. */
  lemma {:induction false} NoHighlightNoOverlay(v: Variant, doc: Document, msgs: seq<Inbound>)
    requires forall k :: 0 <= k < |msgs| ==> msgs[k].kind != HighlightTag
    ensures Run(v, Overlay.Initial, doc, msgs).0 == Overlay.Initial
    decreases |msgs|
  {
    if msgs != [] {
      assert Handle(v, Overlay.Initial, doc, msgs[0]).0 == Overlay.Initial;
      NoHighlightNoOverlay(v, doc, msgs[1..]);
    }
  }

  /** How many replies a message earns, whatever the overlay state: one per
      detect request, one per info request whose selector finds an element with
      a cloneable descriptor. */
  function RepliesFor(doc: Document, msg: Inbound): nat {
    if msg.kind == DetectTag then 1
    else if msg.kind == InfoTag && Descriptor.Describe(doc, msg.selector).Some?
            && Cloneable(Descriptor.Describe(doc, msg.selector).value) then 1
    else 0
  }

  function ExpectedReplies(doc: Document, msgs: seq<Inbound>): nat
    decreases |msgs|
  {
    if msgs == [] then 0 else RepliesFor(doc, msgs[0]) + ExpectedReplies(doc, msgs[1..])
  }

  /** The number of replies a stream produces is fixed by the messages and the
      document alone: neither the overlay state nor the variant suppresses or
      adds a reply. */
  lemma {:induction false} ReplyCount(v: Variant, st: Overlay.State, doc: Document, msgs: seq<Inbound>)
    ensures |Run(v, st, doc, msgs).1| == ExpectedReplies(doc, msgs)
    decreases |msgs|
  {
    if msgs != [] {
      ReplyCount(v, Handle(v, st, doc, msgs[0]).0, doc, msgs[1..]);
    }
  }

  /** A single message yields its `Handle` step: the next state and the reply,
      if any. */
  lemma RunOne(v: Variant, st: Overlay.State, doc: Document, m: Inbound)
    ensures Run(v, st, doc, [m]) == (Handle(v, st, doc, m).0, Emitted(Handle(v, st, doc, m).1))
  {
    var step := Handle(v, st, doc, m);
    assert [m][0] == m && [m][1..] == [];
    assert Run(v, step.0, doc, []) == (step.0, []);
    assert Emitted(step.1) + [] == Emitted(step.1);
  }

  /** Replies come out in handling order: running `a + b` is running `a`, then
      running `b` from where `a` left the overlay, with the replies of `a`
      before those of `b`. */
  lemma RunAppend(v: Variant, st: Overlay.State, doc: Document, a: seq<Inbound>, b: seq<Inbound>)
    ensures Run(v, st, doc, a + b)
         == (Run(v, Run(v, st, doc, a).0, doc, b).0, Run(v, st, doc, a).1 + Run(v, Run(v, st, doc, a).0, doc, b).1)
  {
    var step := (s, m) => Handle(v, s, doc, m);
    RunIsFold(v, st, doc, a + b);
    RunIsFold(v, st, doc, a);
    RunIsFold(v, Run(v, st, doc, a).0, doc, b);
    FoldAppend(step, st, a, b);
  }

  /** A listener with an arbitrary step, folded over a stream. */
  function Fold(step: (Overlay.State, Inbound) -> (Overlay.State, Option<Outbound>), st: Overlay.State, msgs: seq<Inbound>): (r: (Overlay.State, seq<Outbound>))
    ensures |r.1| <= |msgs|
    decreases |msgs|
  {
    if msgs == [] then (st, [])
    else
      var rest := Fold(step, step(st, msgs[0]).0, msgs[1..]);
      (rest.0, Emitted(step(st, msgs[0]).1) + rest.1)
  }

  lemma {:induction false} FoldAppend(step: (Overlay.State, Inbound) -> (Overlay.State, Option<Outbound>), st: Overlay.State, a: seq<Inbound>, b: seq<Inbound>)
    ensures Fold(step, st, a + b)
         == (Fold(step, Fold(step, st, a).0, b).0, Fold(step, st, a).1 + Fold(step, Fold(step, st, a).0, b).1)
    decreases |a|
  {
    if a == [] {
      assert a + b == b;
      assert Fold(step, st, a) == (st, []);
      assert [] + Fold(step, st, b).1 == Fold(step, st, b).1;
    } else {
      assert (a + b)[0] == a[0] && (a + b)[1..] == a[1..] + b;
      var next := step(st, a[0]).0;
      FoldAppend(step, next, a[1..], b);
      var ra := Fold(step, next, a[1..]);
      var rb := Fold(step, ra.0, b);
      assert Emitted(step(st, a[0]).1) + (ra.1 + rb.1) == (Emitted(step(st, a[0]).1) + ra.1) + rb.1;
    }
  }

  /** `Run` is the fold of `Handle`. */
  lemma {:induction false} RunIsFold(v: Variant, st: Overlay.State, doc: Document, msgs: seq<Inbound>)
    ensures Run(v, st, doc, msgs) == Fold((s, m) => Handle(v, s, doc, m), st, msgs)
    decreases |msgs|
  {
    if msgs != [] {
      RunIsFold(v, Handle(v, st, doc, msgs[0]).0, doc, msgs[1..]);
    }
  }

  /** A detect request over the page background is answered with
      `NO_ELEMENT_DETECTED` and its action echoed. */
  lemma BackgroundIsNoElement(v: Variant, st: Overlay.State, doc: Document, x: real, y: real, action: JsValue)
    requires doc.hitTest(x, y).Some? && doc.hitTest(x, y).value.tagName in {"HTML", "BODY"}
    ensures Handle(v, st, doc, Inbound(DetectTag, "", Some(x), Some(y), action)) == (st, Some(NoElementDetected(action)))
  {
    Point.RootNeverReported(doc, x, y);
  }

  /** A stale selector is answered with silence. */
  lemma StaleInfoIsSilent(v: Variant, st: Overlay.State, doc: Document, selector: string, x: Option<real>, y: Option<real>, action: JsValue)
    requires doc.select(selector) == Some([]) || doc.select(selector).None?
    ensures Handle(v, st, doc, Inbound(InfoTag, selector, x, y, action)) == (st, None)
  {
    Descriptor.StaleSelectorHasNoDescriptor(doc, selector);
  }

  /** An info request whose first match is an SVG element is answered with
      silence: the descriptor exists, but cannot be posted. */
  lemma SvgInfoIsSilent(v: Variant, st: Overlay.State, doc: Document, msg: Inbound)
    requires msg.kind == InfoTag
    requires QueryFirst(doc, msg.selector).Some? && QueryFirst(doc, msg.selector).value.className.ClassAnimated?
    ensures Descriptor.Describe(doc, msg.selector).Some?
    ensures Handle(v, st, doc, msg) == (st, None)
  {
  }

  /** Hovering the element whose class token is `a.b`: the script reports
      `.a.b`, a selector the parent frame resolves to the other element; the
      corrected bridge reports the tag name. */
  lemma HoverOverDottedClass(doc: Document, x: real, y: real)
    requires doc.select(".a.b") == Some([Selector.TwoClassSpan])
    requires doc.hitTest(x, y) == Some(Selector.DottedSpan)
    ensures var msg := Inbound(DetectTag, "", Some(x), Some(y), Str("hover"));
            && Handle(AsWritten, Overlay.Initial, doc, msg).1 == Some(ElementHovered(".a.b"))
            && Handle(Corrected, Overlay.Initial, doc, msg).1 == Some(ElementHovered("span"))
  {
    DottedHoverReplies(doc, x, y);
  }

  lemma DottedHoverReplies(doc: Document, x: real, y: real)
    requires doc.select(".a.b") == Some([Selector.TwoClassSpan])
    requires doc.hitTest(x, y) == Some(Selector.DottedSpan)
    ensures DetectReply(Selector.CountOnly, doc, Some(x), Some(y), Str("hover")) == ElementHovered(".a.b")
    ensures DetectReply(Selector.CountAndIdentity, doc, Some(x), Some(y), Str("hover")) == ElementHovered("span")
  {
    Selector.CountOnlyResolvesElsewhere(doc);
    var hit := Point.DetectAt(doc, Some(x), Some(y));
    assert hit == Some(Selector.DottedSpan);
    assert Selector.Synthesize(Selector.CountOnly, doc, hit.value) == Some(".a.b");
    assert Selector.Synthesize(Selector.CountAndIdentity, doc, hit.value) == Some("span");
    assert ".a.b" != "" && "span" != "";
  }
}
