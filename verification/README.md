# Visual-edit bridge, modelled in Dafny

The storefront ships one script with real logic, `public/visual-edit-bridge.js`. It runs inside the rendered
page and lets an editor in the parent frame inspect the page. The script has five parts:

- a **selector synthesiser**. It names an element with a priority chain: identity attributes first, then a
  uniqueness-checked compound class selector, then `tag:nth-child(i)`, then the bare tag name;
- a **point filter**. It resolves viewport coordinates to the topmost element, except the document root and
  the body;
- an **overlay manager**. It owns one lazily created highlight rectangle and shows it over an element or
  hides it;
- a **descriptor extractor**. It snapshots an element's tag, classes, trimmed text, computed style,
  rectangle and source provenance;
- a **message dispatcher**. It maps each inbound message to at most one reply.

The model works over an abstract DOM (`dom.dfy`). An element is an immutable record. It holds:

- a node identity;
- the tag name, the attribute map and the class name (a string, or an SVG animated string);
- the text content;
- a snapshot of its parent link;
- its rectangle and its computed style.

The document holds the elements in document order. It also holds the platform facilities the script calls:

- `select` is the selector engine behind `querySelector`/`querySelectorAll`. It returns `None` when the
  engine rejects the selector and throws;
- `hitTest` is `elementFromPoint`;
- the scroll offsets.

The dispatcher is a pure step `Bridge.Handle` from the overlay state and one message to the next state and an
optional reply. `Bridge.Run` folds it over a stream of messages. Both take a `Bridge.Variant`: the class
selector's uniqueness guard and the rectangle's positioning. `Bridge.AsWritten` is the script as it stands
(count-only guard, `position: fixed`); `Bridge.Corrected` applies the two corrections under "## Findings". Every
dispatcher property below is stated for both variants unless its row says otherwise.

Files: `wrappers.dfy` (Option), `text.dfy` (trim, split, filter, join, lower-casing, decimal digits),
`dom.dfy`, `selector.dfy`, `point.dfy`, `overlay.dfy`, `descriptor.dfy`, `bridge.dfy`.

## Model

| member | source | states |
|---|---|---|
| Text.Trim | public/visual-edit-bridge.js:64 | the result is the part of the input between an all-white-space prefix and an all-white-space suffix, and it neither starts nor ends with white space |
| Text.TrimIdempotent | public/visual-edit-bridge.js:64 | trimming twice equals trimming once; a string is its own trim exactly when neither end is white space |
| Text.TrimEmptyIffAllSpace | public/visual-edit-bridge.js:122 | a string trims to `""` exactly when it is all white space |
| Text.SplitOnSpace | public/visual-edit-bridge.js:64 | `split(/\s+/)` yields at least one piece, and no piece contains white space |
| Text.DropEmpty | public/visual-edit-bridge.js:64 | `filter(c => c)` keeps every non-empty piece, and only pieces of the input, and drops every empty one |
| Text.ClassTokens | public/visual-edit-bridge.js:64 | the `trim().split(/\s+/).filter(c => c)` pipeline yields only non-empty, white-space-free tokens |
| Text.Words | public/visual-edit-bridge.js:64 | reference token list: every token is non-empty and free of white space |
| Text.ClassTokensAreWords | public/visual-edit-bridge.js:64 | the `trim().split(/\s+/).filter(c => c)` pipeline equals the list of maximal white-space-free runs |
| Text.SplitThenDropIsWords | public/visual-edit-bridge.js:64 | splitting then dropping empty pieces already gives the words, trimmed or not, so the `trim` adds nothing |
| Text.WordsOfJoin | public/visual-edit-bridge.js:64-66 | tokens joined with spaces split back into exactly those tokens |
| Text.Join | public/visual-edit-bridge.js:66 | `join` of no parts is `""`; otherwise the result opens with the first part |
| Text.ToLower | public/visual-edit-bridge.js:80 | the lower-cased tag keeps its length, maps each upper-case ASCII letter to its lower-case letter, and keeps every other character |
| Text.ToLowerIdempotent | public/visual-edit-bridge.js:80 | lower-casing twice equals lower-casing once |
| Text.NatToString | public/visual-edit-bridge.js:81 | the rendered index is a non-empty digit string with no leading zero |
| Text.ParseNatToString | public/visual-edit-bridge.js:81 | reading the rendered digits back gives the index |
| Dom.QueryFirst | public/visual-edit-bridge.js:27-28 | `querySelector` gives the first match, and nothing when there is no match or the engine rejects the selector |
| Dom.IndexOf | public/visual-edit-bridge.js:78-79 | `indexOf` is -1 exactly when the node is not among the children; otherwise the first slot that holds it |
| Dom.ClassMatches | public/visual-edit-bridge.js:68 | the elements a compound class selector matches: exactly the document's elements whose class tokens include every token |
| Dom.TwoMatchesCounted | public/visual-edit-bridge.js:68-69 | two different nodes carrying the tokens give a match list of length at least two |
| Selector.IdentityFrom | public/visual-edit-bridge.js:54-60 | no result exactly when no listed attribute is present and non-empty; otherwise the first such attribute, `id` as `#value` and the others as `[attr="value"]` |
| Selector.ClassStep | public/visual-edit-bridge.js:62-73 | the class strategy faults exactly when a string class name has tokens and the engine rejects their selector; it accepts exactly when the guard accepts the match list |
| Selector.GenerateWith | public/visual-edit-bridge.js:51-90 | identity forms exactly when an identity attribute qualifies (the first one); `null` exactly when the class query throws; a class selector exactly when the guard accepts; otherwise `lowercase(tag):nth-child(indexOf + 1)` with a parent and `lowercase(tag)` without |
| Selector.Render | public/visual-edit-bridge.js:58-85 | each field of the selector sits verbatim in its own slice between the fixed punctuation: `#`, `[`…`="`…`"]`, a leading `.`, `:nth-child(`…`)` |
| Selector.GenerateAsWritten | public/visual-edit-bridge.js:66-71 | as written, a class selector is kept exactly when no identity attribute qualifies and the document holds exactly one match for it, whichever element that is |
| Selector.Generate | public/visual-edit-bridge.js:66-71 | corrected: a class selector is kept only when its single match is the element itself |
| Selector.Synthesize | public/visual-edit-bridge.js:51-90 | for the given guard: `null` exactly when no identity attribute qualifies and the class query throws; otherwise `#v` for `id` or `[name="v"]` for the first qualifying identity attribute; else `.` followed by the class tokens joined with `.` when the guard accepts; else `tag:nth-child(indexOf + 1)` with the lower-cased tag under a parent, and the bare lower-cased tag without one. With `CountOnly` this is the script |
| Selector.RenderEmpty | public/visual-edit-bridge.js:58-85 | a rendered selector is empty exactly when it is a bare tag name and the tag is empty |
| Selector.IdentityTakesPriority | public/visual-edit-bridge.js:53-73 | with a qualifying identity attribute the result is an identity form and is the same in every document, so a unique class list never wins |
| Selector.TestIdWins | public/visual-edit-bridge.js:54-58 | a non-empty `data-testid` gives `[data-testid="v"]` whatever else is set |
| Selector.IdWinsLast | public/visual-edit-bridge.js:54-58 | `id` gives `#v` once the three data attributes are absent or empty |
| Selector.EmptyIdentityIgnored | public/visual-edit-bridge.js:56-57 | an identity attribute set to `""` gives the same result as no attribute |
| Selector.SharedClassesFallThrough | public/visual-edit-bridge.js:66-71 | if another element carries all of the element's classes and the engine matches by tokens, no class selector is produced |
| Selector.GuardsAgreeWhenFaithful | public/visual-edit-bridge.js:68-71 | when the engine matches the class selector by tokens, the count-only guard and the count-and-identity guard give the same selector |
| Selector.ClassSelectorReResolves | public/visual-edit-bridge.js:66-71 | with the corrected guard, a class selector matches exactly one element, and that element is the one it names |
| Selector.UniqueClassesChosen | public/visual-edit-bridge.js:62-73 | under either guard, with no qualifying identity attribute (any other attributes allowed), a class list that resolves to the element alone is the answer |
| Selector.PlainElementIsStructural | public/visual-edit-bridge.js:75-85 | with no qualifying identity attribute and no usable string class name, the result is the nth-child form under a parent and the bare lower-case tag without one, under either guard |
| Selector.PositionPointsBack | public/visual-edit-bridge.js:76-81 | if the element is among its parent's children, the position is 1-based, in range, names the element's slot, and no earlier child is the element |
| Selector.PositionDigitsReadBack | public/visual-edit-bridge.js:81 | the digits between `:nth-child(` and `)` read back as the position |
| Selector.ClassSelectorReadsBack | public/visual-edit-bridge.js:66 | splitting a class selector after its dot on `.` gives back its tokens when no token contains a dot |
| Selector.HeroScenario | public/visual-edit-bridge.js:54-58 | `id="hero"` gives `#hero` in any document, under either guard |
| Selector.ButtonScenario | public/visual-edit-bridge.js:62-70 | class `btn btn-primary`, carried by the element alone, gives `.btn.btn-primary` |
| Selector.ListItemScenario | public/visual-edit-bridge.js:75-81 | in any document and under either guard, the third of four plain `<li>` siblings gives `li:nth-child(3)` |
| Selector.CountOnlyResolvesElsewhere | public/visual-edit-bridge.js:66-71 | in any document where `.a.b` matches only the element with classes `a b`: as written, the element whose class token is `a.b` is reported as `.a.b`, which resolves to the other element; the corrected guard reports `span` |
| Overlay.CreateWith | public/visual-edit-bridge.js:8-22 | an existing rectangle is returned unchanged and nothing is appended; otherwise exactly one fresh, unpositioned rectangle is appended and remembered |
| Overlay.CreateIdempotent | public/visual-edit-bridge.js:9 | a second creation returns the same rectangle and the same state |
| Overlay.HighlightWith | public/visual-edit-bridge.js:25-41 | no match (or a rejected selector) leaves the state unchanged; a match shows the rectangle at the first match's rectangle plus the scroll offset, creating it only if absent |
| Overlay.HighlightAsWritten | public/visual-edit-bridge.js:12-37 | as written, the highlighted rectangle is fixed and appears at the element's viewport rectangle shifted by the scroll offset |
| Overlay.Highlight | public/visual-edit-bridge.js:25-41 | corrected: the highlighted rectangle is absolute and appears exactly over the element's viewport rectangle |
| Overlay.Clear | public/visual-edit-bridge.js:44-48 | without a rectangle nothing changes; with one it is hidden and keeps its geometry, and the page keeps it |
| Overlay.OperationsKeepSingleOverlay | public/visual-edit-bridge.js:5-48 | creation, highlight and clear keep exactly one appended rectangle once one exists and none before, and the rectangle keeps the positioning it was created with |
| Overlay.ClearWithoutCreate | public/visual-edit-bridge.js:44-48 | clearing a fresh page changes nothing and creates nothing |
| Overlay.HighlightForgetsPriorGeometry | public/visual-edit-bridge.js:33-36 | for either positioning, the rectangle after a highlight does not depend on its earlier geometry or visibility |
| Overlay.HighlightIdempotent | public/visual-edit-bridge.js:25-41 | for either positioning, highlighting the same selector twice equals highlighting it once |
| Overlay.HighlightCoversElement | public/visual-edit-bridge.js:30-37 | with absolute positioning the rectangle appears exactly over the element's viewport rectangle, whatever the scroll |
| Overlay.FixedOverlayMisplacedWhenScrolled | public/visual-edit-bridge.js:12-37 | as written, the fixed rectangle appears offset from the element by exactly the scroll offset |
| Overlay.ScrolledPageCounterexample | public/visual-edit-bridge.js:12-37 | with the page scrolled by 100, an element at viewport top 50 gets a fixed rectangle at viewport top 150 |
| Point.DetectAt | public/visual-edit-bridge.js:93-104 | no element exactly when a coordinate is not finite, the hit test finds nothing, or it finds `HTML` or `BODY`; otherwise the hit element unchanged |
| Point.RootNeverReported | public/visual-edit-bridge.js:96-97 | a hit on `HTML` or `BODY` is never reported |
| Point.LowerCaseRootPasses | public/visual-edit-bridge.js:96 | the tag comparison is case-sensitive, so a lower-case `html` passes the filter |
| Descriptor.TrimmedText | public/visual-edit-bridge.js:122 | the reported text is the trimmed text content, so the fallback to `''` adds nothing; it neither starts nor ends with white space, and is empty exactly when the text content is all white space |
| Descriptor.Describe | public/visual-edit-bridge.js:107-145 | no descriptor exactly when nothing matches or the engine rejects the selector; otherwise the selector, tag, class name, trimmed text, computed style and rectangle of the first match, and `sourceFile`/`sourceLine` equal to its `data-source-file`/`data-source-line` attributes, `null` when absent |
| Descriptor.ProvenanceOptional | public/visual-edit-bridge.js:138-139 | without provenance attributes the descriptor still exists, with both provenance fields `null` |
| Descriptor.EmptyProvenanceKept | public/visual-edit-bridge.js:138-139 | an empty `data-source-line` is reported as `""`, not as absent |
| Descriptor.StaleSelectorHasNoDescriptor | public/visual-edit-bridge.js:109-113 | a selector matching nothing yields no descriptor |
| Descriptor.TextIsTrimmed | public/visual-edit-bridge.js:122 | the reported text is its own trim |
| Bridge.DetectReply | public/visual-edit-bridge.js:170-193 | for the given guard: `ELEMENT_HOVERED` exactly when the action is the string `hover` and an element was found and named by a non-empty selector, which is carried; `ELEMENT_CLICKED` for every other action in that case; otherwise `NO_ELEMENT_DETECTED` echoing the action |
| Bridge.EmptySelectorOnlyForEmptyTag | public/visual-edit-bridge.js:174-176 | the falsy-selector test only rejects an element with an empty tag name, no parent and no identity attribute |
| Bridge.Handle | public/visual-edit-bridge.js:148-195 | only highlight and clear touch the overlay and they never reply; an info request replies with the descriptor exactly when one exists and its class name is a string; a detect request replies with the detect branch's answer; unknown kinds do nothing |
| Bridge.Run | public/visual-edit-bridge.js:148-195 | a stream of messages produces at most one reply per message |
| Bridge.RunOne | public/visual-edit-bridge.js:148-195 | a one-message stream yields that message's step: its next state and its reply, if any |
| Bridge.RunAppend | public/visual-edit-bridge.js:148-195 | replies come out in handling order: a stream `a + b` ends where `b` ends when started from `a`'s final state, and its replies are those of `a` followed by those of `b` |
| Bridge.RunKeepsSingleOverlay | public/visual-edit-bridge.js:5-48 | after any stream of messages there is at most one rectangle in the page, it is the remembered one, and it has the variant's positioning |
| Bridge.NoHighlightNoOverlay | public/visual-edit-bridge.js:152-158 | a stream without highlight requests leaves a fresh page without a rectangle |
| Bridge.ReplyCount | public/visual-edit-bridge.js:160-193 | a stream gets one reply per detect request and one per info request whose selector finds an element with a string class name, and no others, whatever the overlay state and variant |
| Bridge.BackgroundIsNoElement | public/visual-edit-bridge.js:170-192 | a detect request over the root or the body replies `NO_ELEMENT_DETECTED` with the action echoed and leaves the overlay alone |
| Bridge.StaleInfoIsSilent | public/visual-edit-bridge.js:160-168 | an info request for a selector matching nothing sends no reply and changes nothing |
| Bridge.SvgInfoIsSilent | public/visual-edit-bridge.js:160-167 | an info request whose first match is an SVG element gets no reply: the descriptor exists, but its `SVGAnimatedString` class name makes `postMessage` throw |
| Bridge.HoverOverDottedClass | public/visual-edit-bridge.js:170-180 | hovering the element whose class token is `a.b`: the script replies `ELEMENT_HOVERED` with `.a.b`, the corrected bridge with `span` |

## Findings

| source | as written | input that shows it | evidently intended | confidence | as-written member | corrected member |
|---|---|---|---|---|---|---|
| public/visual-edit-bridge.js:68-71 | the class selector is accepted when `querySelectorAll` returns exactly one match, without checking that the match is the element | an element whose class token is `a.b`, and another element with classes `a b`: `.a.b` matches only the other element, so the first element is named by a selector that resolves elsewhere | accept only when the single match is the element itself | medium, not executed | Selector.CountOnlyResolvesElsewhere | Selector.ClassSelectorReResolves |
| public/visual-edit-bridge.js:12-34 | the rectangle is `position: fixed` but is placed at the viewport rectangle plus the scroll offset, which are document coordinates | page scrolled by 100, element at viewport top 50: the rectangle is drawn at viewport top 150 | place the rectangle in document coordinates with `position: absolute` (same geometry) | high, not executed | Overlay.ScrolledPageCounterexample | Overlay.HighlightCoversElement |

The selector guard is a parameter of `Selector.GenerateWith`. `Selector.GenerateAsWritten` uses the guard as
written and `Selector.Generate` uses the corrected one. The overlay's positioning scheme is a parameter of
`Overlay.HighlightWith`. `Overlay.HighlightAsWritten` uses `fixed` and `Overlay.Highlight` uses `absolute`.
`Bridge.Handle` takes both as a `Bridge.Variant`: `Bridge.AsWritten` models the script and `Bridge.Corrected`
the intended behaviour, and `Bridge.HoverOverDottedClass` shows them replying differently. The two guards give the same
answer whenever the engine matches class selectors by tokens (`Selector.GuardsAgreeWhenFaithful`). The two
positioning schemes store the same geometry.

## Left out

- Transport: `addEventListener`, the delivery of `window.parent.postMessage` and the `'*'` target origin are not modelled. The dispatcher is a pure function from one message to an optional reply. Of the structured clone inside `postMessage`, only its refusal of an SVG element's `SVGAnimatedString` class name is modelled (`Bridge.Cloneable`); the other descriptor fields are strings and plain numbers.
- Logging: `console` output is not modelled. Every caught fault becomes the `None` result the catch block returns.
- CSS selector parsing and matching: the engine is the abstract `select` function of the document. The class-selector lemmas assume, where they say so, that it matches by class tokens (`Selector.ClassQueryFaithful`). Nothing is proved about identity-attribute or nth-child selectors re-resolving through a real engine: attribute values are inserted unescaped, so only the string construction is specified.
- Computed styles and the overlay's inline `cssText` are opaque strings. Only the positioning scheme, which decides where the rectangle appears, is modelled. The CSS transition is not modelled.
- Geometry: `getBoundingClientRect` values and scroll offsets are reals, not doubles. The `px` string formatting of the overlay offsets is not modelled.
- Text.ToLower: lower-cases ASCII letters only, not the full Unicode case mapping of `toLowerCase`. HTML tag names are ASCII.
- Dom.ClassMatches: tokenises the class attribute with the ECMAScript white-space set. A DOM class list splits on ASCII white space only, so the two differ for classes containing, say, a no-break space.
- Overlay.CreateWith: assumes `document.body` exists. If it did not, the script would remember a rectangle it never appended.
- Message shape: the five fields are taken as already read from `event.data`. A payload that is not an object makes the listener throw, or match no case; either way nothing is sent. The `type` and `action` fields are taken to be primitive values, so an object or array `action`, which the script echoes as received, is not modelled. A selector is taken as the string the platform would coerce it to. A coordinate is either a finite number or `None`, which makes `elementFromPoint` throw; numeric coercion of strings is not modelled.
- The document is fixed across a stream of messages in `Bridge.Run`. The live page can change between messages. The highlight rectangle is itself appended to the body, and the model's document does not gain it, so a later structural selector such as `div:nth-child(k)` could match it in the page but not in the model.
- Element text content is a stored string rather than being computed from descendant text nodes.
- The React components of the storefront (`src/**/*.tsx`) are view composition over hooks and contexts that are not part of this model.
