/**
 The selector synthesiser (`generateSelector`): a strict priority chain of
 identity attributes, a uniqueness-checked compound class selector, a
 `tag:nth-child(i)` position under the parent, and the bare tag name.

 The class strategy is parameterised by its uniqueness guard. As written, the
 script accepts the class selector when the document holds exactly one match;
 the corrected guard also demands that this one match is the element itself.
 The two agree whenever the engine reads the selector as token containment
 (`GuardsAgreeWhenFaithful`); `CountOnlyResolvesElsewhere` shows an input where
 they do not.
 */
module Selector {
  import opened Wrappers
  import opened Dom
  import Text

  datatype Selector =
    | ByAttribute(name: string, value: string)
    | ById(value: string)
    | ByClasses(tokens: seq<string>)
    | ByPosition(tag: string, position: nat)
    | ByTag(tag: string)

  /** The selector string handed back to the editor. Attribute values and class
      tokens are inserted verbatim, without CSS escaping, so each field sits in
      its own slice of the text between fixed punctuation. */
  function Render(s: Selector): (r: string)
    ensures s.ById? ==> |r| == |s.value| + 1 && r[0] == '#' && r[1..] == s.value
    ensures s.ByAttribute? ==>
              var n := |s.name|;
              && |r| == n + |s.value| + 5
              && r[0] == '[' && r[1..n + 1] == s.name && r[n + 1..n + 3] == "=\""
              && r[n + 3..|r| - 2] == s.value && r[|r| - 2..] == "\"]"
    ensures s.ByClasses? ==> |r| >= 1 && r[0] == '.' && r[1..] == Text.Join(s.tokens, ".")
    ensures s.ByPosition? ==>
              var t := |s.tag|;
              && |r| > t + 11
              && r[..t] == s.tag && r[t..t + 11] == ":nth-child(" && r[|r| - 1] == ')'
              && r[t + 11..|r| - 1] == Text.NatToString(s.position)
    ensures s.ByTag? ==> r == s.tag
  {
    match s
    case ByAttribute(n, v) => "[" + n + "=\"" + v + "\"]"
    case ById(v) => "#" + v
    case ByClasses(ts) => "." + Text.Join(ts, ".")
    case ByPosition(tag, i) => tag + ":nth-child(" + Text.NatToString(i) + ")"
    case ByTag(tag) => tag
  }

  /** Every strategy but the bare tag name renders to a non-empty string. */
  lemma RenderEmpty(s: Selector)
    ensures Render(s) == "" <==> s.ByTag? && s.tag == ""
  {
    if s.ByPosition? {
      assert Render(s)[|s.tag|] == ':';
    }
  }

  /** The identity attributes, in priority order. */
  const IdentityAttributes: seq<string> := ["data-testid", "data-id", "data-component", "id"]

  /** `if (value)`: the attribute is present with a non-empty value. */
  predicate Qualifies(e: Element, name: string) {
    GetAttribute(e, name).Some? && GetAttribute(e, name).value != ""
  }

  predicate NoIdentity(e: Element) {
    forall k :: 0 <= k < |IdentityAttributes| ==> !Qualifies(e, IdentityAttributes[k])
  }

  /** `names[k]` is the first name in the list that qualifies. */
  predicate FirstQualifying(e: Element, names: seq<string>, k: int) {
    && 0 <= k < |names|
    && Qualifies(e, names[k])
    && forall j :: 0 <= j < k ==> !Qualifies(e, names[j])
  }

  /** `id` is rendered in fragment form, every other attribute in equality form. */
  function IdentityForm(name: string, value: string): Selector {
    if name == "id" then ById(value) else ByAttribute(name, value)
  }

  /** The first loop of `generateSelector` over a list of attribute names. */
  function IdentityFrom(e: Element, names: seq<string>): (r: Option<Selector>)
    ensures r.None? <==> forall k :: 0 <= k < |names| ==> !Qualifies(e, names[k])
    ensures r.Some? ==> exists k :: FirstQualifying(e, names, k)
                                  && r.value == IdentityForm(names[k], e.attributes[names[k]])
  {
    if names == [] then None
    else if Qualifies(e, names[0]) then
      assert FirstQualifying(e, names, 0);
      Some(IdentityForm(names[0], e.attributes[names[0]]))
    else
      var r := IdentityFrom(e, names[1..]);
      if r.Some? then
        var k :| FirstQualifying(e, names[1..], k)
                 && r.value == IdentityForm(names[1..][k], e.attributes[names[1..][k]]);
        assert FirstQualifying(e, names, k + 1);
        r
      else
        r
  }

  /** The tokens of a string class name, if the class strategy applies at all:
      `className` is a string, truthy, and yields at least one token. */
  predicate ClassCandidate(e: Element) {
    e.className.ClassString? && |Text.Words(e.className.value)| > 0
  }

  /** The compound class selector for a token list. */
  function ClassSelectorText(tokens: seq<string>): string {
    Render(ByClasses(tokens))
  }

  datatype Guard = CountOnly | CountAndIdentity

  predicate Accepts(guard: Guard, matches: seq<Element>, e: Element) {
    match guard
    case CountOnly => |matches| == 1
    case CountAndIdentity => |matches| == 1 && matches[0].node == e.node
  }

  /** The class query throws: the synthesis as a whole returns `null`. */
  predicate ClassFaults(doc: Document, e: Element) {
    ClassCandidate(e) && doc.select(ClassSelectorText(Text.Words(e.className.value))).None?
  }

  /** The class query succeeds and the guard accepts its match list. */
  predicate ClassAccepted(guard: Guard, doc: Document, e: Element) {
    && ClassCandidate(e)
    && doc.select(ClassSelectorText(Text.Words(e.className.value))).Some?
    && Accepts(guard, doc.select(ClassSelectorText(Text.Words(e.className.value))).value, e)
  }

  datatype ClassOutcome = Accepted(tokens: seq<string>) | FallThrough | Faulted

  /** The second strategy: build `.t1.t2…`, query the whole document, and keep
      it when the guard accepts the match list. A rejected selector makes
      `querySelectorAll` throw, and the whole synthesis returns `null`. */
  function ClassStep(guard: Guard, doc: Document, e: Element): (r: ClassOutcome)
    ensures r.Faulted? <==> ClassCandidate(e) && doc.select(ClassSelectorText(Text.Words(e.className.value))).None?
    ensures r.Accepted? <==>
              && ClassCandidate(e)
              && doc.select(ClassSelectorText(Text.Words(e.className.value))).Some?
              && Accepts(guard, doc.select(ClassSelectorText(Text.Words(e.className.value))).value, e)
    ensures r.Accepted? ==> r.tokens == Text.Words(e.className.value)
  {
    if e.className.ClassString? && e.className.value != [] then
      var classes := Text.ClassTokens(e.className.value);
      Text.ClassTokensAreWords(e.className.value);
      if |classes| > 0 then
        match doc.select(ClassSelectorText(classes))
        case None => Faulted
        case Some(matches) => if Accepts(guard, matches, e) then Accepted(classes) else FallThrough
      else FallThrough
    else
      assert e.className.ClassString? ==> Text.Words(e.className.value) == [];
      FallThrough
  }

  /** `generateSelector(element)` with the given uniqueness guard; `None` is the
      `null` the catch block returns. */
  function GenerateWith(guard: Guard, doc: Document, e: Element): (r: Option<Selector>)
    // identity attributes first, and only they give the identity forms
    ensures NoIdentity(e) <==> !(r.Some? && (r.value.ById? || r.value.ByAttribute?))
    ensures r.Some? && (r.value.ById? || r.value.ByAttribute?) ==>
              exists k :: FirstQualifying(e, IdentityAttributes, k)
                          && r.value == IdentityForm(IdentityAttributes[k], e.attributes[IdentityAttributes[k]])
    // the class strategy: a fault is fatal, acceptance is guarded
    ensures r.None? <==>
              && NoIdentity(e) && ClassCandidate(e)
              && doc.select(ClassSelectorText(Text.Words(e.className.value))).None?
    ensures r.Some? && r.value.ByClasses? <==>
              && NoIdentity(e) && ClassCandidate(e)
              && doc.select(ClassSelectorText(Text.Words(e.className.value))).Some?
              && Accepts(guard, doc.select(ClassSelectorText(Text.Words(e.className.value))).value, e)
    ensures r.Some? && r.value.ByClasses? ==> r.value.tokens == Text.Words(e.className.value)
    // the structural fallbacks
    ensures r.Some? && (r.value.ByPosition? || r.value.ByTag?) ==>
              (r.value.ByPosition? <==> e.parent.Some?) && r.value.tag == Text.ToLower(e.tagName)
    ensures r.Some? && r.value.ByPosition? ==>
              r.value.position == IndexOf(e.parent.value.children, e.node) + 1
  {
    var identity := IdentityFrom(e, IdentityAttributes);
    if identity.Some? then
      identity
    else
      match ClassStep(guard, doc, e)
      case Faulted => None
      case Accepted(classes) => Some(ByClasses(classes))
      case FallThrough =>
        match e.parent
        case Some(p) => Some(ByPosition(Text.ToLower(e.tagName), IndexOf(p.children, e.node) + 1))
        case None => Some(ByTag(Text.ToLower(e.tagName)))
  }

  /** The corrected synthesiser: a class selector is kept only when its single
      match is the element itself. */
  function Generate(doc: Document, e: Element): (r: Option<Selector>)
    ensures r.Some? && r.value.ByClasses? ==>
              && doc.select(ClassSelectorText(r.value.tokens)).Some?
              && |doc.select(ClassSelectorText(r.value.tokens)).value| == 1
              && doc.select(ClassSelectorText(r.value.tokens)).value[0].node == e.node
  {
    GenerateWith(CountAndIdentity, doc, e)
  }

  /** The synthesiser exactly as the script writes it: a class selector is kept
      when it has a single match, whichever element that is. */
  function GenerateAsWritten(doc: Document, e: Element): (r: Option<Selector>)
    ensures r.Some? && r.value.ByClasses? ==>
              && doc.select(ClassSelectorText(r.value.tokens)).Some?
              && |doc.select(ClassSelectorText(r.value.tokens)).value| == 1
    ensures NoIdentity(e) && ClassCandidate(e)
            && doc.select(ClassSelectorText(Text.Words(e.className.value))).Some?
            && |doc.select(ClassSelectorText(Text.Words(e.className.value))).value| == 1
            ==> r == Some(ByClasses(Text.Words(e.className.value)))
  {
    GenerateWith(CountOnly, doc, e)
  }

  /** `generateSelector(element)`: the string reported, or `None` for `null`,
      stated form by form in terms of the element. */
  function Synthesize(guard: Guard, doc: Document, e: Element): (r: Option<string>)
    ensures r.None? <==> NoIdentity(e) && ClassFaults(doc, e)
    // the first qualifying identity attribute, `#v` for `id`, `[name="v"]` otherwise
    ensures forall k :: FirstQualifying(e, IdentityAttributes, k) ==>
              r == Some(if IdentityAttributes[k] == "id" then "#" + e.attributes["id"]
                        else "[" + IdentityAttributes[k] + "=\"" + e.attributes[IdentityAttributes[k]] + "\"]")
    // the element's class tokens, each after a dot
    ensures NoIdentity(e) && ClassAccepted(guard, doc, e) ==>
              r == Some("." + Text.Join(Text.Words(e.className.value), "."))
    // the lower-cased tag, with its 1-based place among the parent's children
    ensures NoIdentity(e) && !ClassFaults(doc, e) && !ClassAccepted(guard, doc, e) && e.parent.Some? ==>
              r == Some(Text.ToLower(e.tagName) + ":nth-child("
                        + Text.NatToString(IndexOf(e.parent.value.children, e.node) + 1) + ")")
    ensures NoIdentity(e) && !ClassFaults(doc, e) && !ClassAccepted(guard, doc, e) && e.parent.None? ==>
              r == Some(Text.ToLower(e.tagName))
  {
    match GenerateWith(guard, doc, e)
    case None => None
    case Some(s) => Some(Render(s))
  }

  // ---------------------------------------------------------------- properties

  /** Priority determinism: with a qualifying identity attribute the answer is an
      identity form and does not depend on the document at all, so however unique
      the element's classes are, the class strategy is never consulted. */
  lemma IdentityTakesPriority(guard: Guard, doc1: Document, doc2: Document, e: Element)
    requires !NoIdentity(e)
    ensures GenerateWith(guard, doc1, e) == GenerateWith(guard, doc2, e)
    ensures GenerateWith(guard, doc1, e).Some?
    ensures !GenerateWith(guard, doc1, e).value.ByClasses?
    ensures !GenerateWith(guard, doc1, e).value.ByPosition?
    ensures !GenerateWith(guard, doc1, e).value.ByTag?
  {
  }

  /** `data-testid` outranks every other identity attribute, `id` included. */
  lemma TestIdWins(guard: Guard, doc: Document, e: Element, v: string)
    requires GetAttribute(e, "data-testid") == Some(v) && v != ""
    ensures GenerateWith(guard, doc, e) == Some(ByAttribute("data-testid", v))
    ensures Render(GenerateWith(guard, doc, e).value) == "[data-testid=\"" + v + "\"]"
  {
    assert Qualifies(e, IdentityAttributes[0]);
    assert IdentityFrom(e, IdentityAttributes) == Some(ByAttribute("data-testid", v));
    assert Render(ByAttribute("data-testid", v)) == "[" + "data-testid" + "=\"" + v + "\"]";
    assert "[" + "data-testid" + "=\"" == "[data-testid=\"";
  }

  /** `id` is reached only when the three data attributes are absent or empty,
      and is rendered as `#value`. */
  lemma IdWinsLast(guard: Guard, doc: Document, e: Element, v: string)
    requires !Qualifies(e, "data-testid") && !Qualifies(e, "data-id") && !Qualifies(e, "data-component")
    requires GetAttribute(e, "id") == Some(v) && v != ""
    ensures GenerateWith(guard, doc, e) == Some(ById(v))
    ensures Render(GenerateWith(guard, doc, e).value) == "#" + v
  {
    var r := GenerateWith(guard, doc, e);
    assert !NoIdentity(e) by {
      assert Qualifies(e, IdentityAttributes[3]);
    }
    var k :| FirstQualifying(e, IdentityAttributes, k)
             && r.value == IdentityForm(IdentityAttributes[k], e.attributes[IdentityAttributes[k]]);
    assert k == 3;
  }

  /** An empty identity attribute counts as absent: clearing one to `""` changes
      nothing about the result. */
  lemma EmptyIdentityIgnored(guard: Guard, doc: Document, e: Element, name: string)
    requires name in IdentityAttributes
    ensures GenerateWith(guard, doc, e.(attributes := e.attributes[name := ""]))
         == GenerateWith(guard, doc, e.(attributes := e.attributes - {name}))
  {
    var e1 := e.(attributes := e.attributes[name := ""]);
    var e2 := e.(attributes := e.attributes - {name});
    forall n | n in IdentityAttributes
      ensures SameIdentity(e1, e2, n)
    {
    }
    IdentityFromAgrees(e1, e2, IdentityAttributes);
    OnlyIdentityRead(guard, doc, e1, e2);
  }

  /** Past the identity loop the attribute map is not read again. */
  lemma OnlyIdentityRead(guard: Guard, doc: Document, e1: Element, e2: Element)
    requires e2 == e1.(attributes := e2.attributes)
    requires IdentityFrom(e1, IdentityAttributes) == IdentityFrom(e2, IdentityAttributes)
    ensures GenerateWith(guard, doc, e1) == GenerateWith(guard, doc, e2)
  {
    assert e1.className == e2.className && e1.node == e2.node;
    assert ClassStep(guard, doc, e1) == ClassStep(guard, doc, e2);
  }

  /** Two elements agree on whether `name` qualifies, and on its value if so. */
  predicate SameIdentity(e1: Element, e2: Element, name: string) {
    && Qualifies(e1, name) == Qualifies(e2, name)
    && (Qualifies(e1, name) && Qualifies(e2, name) ==> e1.attributes[name] == e2.attributes[name])
  }

  lemma {:induction false} IdentityFromAgrees(e1: Element, e2: Element, names: seq<string>)
    requires forall n :: n in names ==> SameIdentity(e1, e2, n)
    ensures IdentityFrom(e1, names) == IdentityFrom(e2, names)
    decreases |names|
  {
    if names != [] {
      assert names[0] in names;
    }
    if names != [] && !Qualifies(e1, names[0]) {
      assert forall n :: n in names[1..] ==> n in names;
      IdentityFromAgrees(e1, e2, names[1..]);
    }
  }

  /** The engine reads the compound class selector of `tokens` as token
      containment (or rejects it). */
  predicate ClassQueryFaithful(doc: Document, tokens: seq<string>) {
    doc.select(ClassSelectorText(tokens)).Some? ==>
      doc.select(ClassSelectorText(tokens)).value == ClassMatches(doc.elements, tokens)
  }

  lemma OwnClasses(e: Element)
    requires e.className.ClassString?
    ensures HasClasses(e, Text.Words(e.className.value))
  {
  }

  /** Uniqueness guard: when another element carries all of this element's
      classes, no class selector is produced, under either guard. */
  lemma SharedClassesFallThrough(guard: Guard, doc: Document, e: Element, f: Element)
    requires e in doc.elements && f in doc.elements && e.node != f.node
    requires e.className.ClassString?
    requires HasClasses(f, Text.Words(e.className.value))
    requires ClassQueryFaithful(doc, Text.Words(e.className.value))
    ensures GenerateWith(guard, doc, e).Some? ==> !GenerateWith(guard, doc, e).value.ByClasses?
  {
    var ts := Text.Words(e.className.value);
    OwnClasses(e);
    if doc.select(ClassSelectorText(ts)).Some? {
      TwoMatchesCounted(doc.elements, ts, e, f);
    }
  }

  /** When the engine reads the class selector as token containment, counting
      the matches is as good as checking that the match is the element. */
  lemma GuardsAgreeWhenFaithful(doc: Document, e: Element)
    requires e in doc.elements
    requires e.className.ClassString? ==> ClassQueryFaithful(doc, Text.Words(e.className.value))
    ensures GenerateAsWritten(doc, e) == Generate(doc, e)
  {
    ClassStepsAgree(doc, e);
  }

  lemma ClassStepsAgree(doc: Document, e: Element)
    requires e in doc.elements
    requires e.className.ClassString? ==> ClassQueryFaithful(doc, Text.Words(e.className.value))
    ensures ClassStep(CountOnly, doc, e) == ClassStep(CountAndIdentity, doc, e)
  {
    if ClassCandidate(e) {
      var ts := Text.Words(e.className.value);
      var sel := doc.select(ClassSelectorText(ts));
      if sel.Some? {
        OwnClasses(e);
        assert e in sel.value;
        AcceptsAgree(sel.value, e);
      }
    }
  }

  /** For a match list that contains the element, both guards decide alike. */
  lemma AcceptsAgree(matches: seq<Element>, e: Element)
    requires e in matches
    ensures Accepts(CountOnly, matches, e) == Accepts(CountAndIdentity, matches, e)
  {
  }

  /** With the corrected guard, a class selector re-resolves to exactly the
      element it was made for. */
  lemma ClassSelectorReResolves(doc: Document, e: Element)
    requires Generate(doc, e).Some? && Generate(doc, e).value.ByClasses?
    ensures doc.select(Render(Generate(doc, e).value)).Some?
    ensures |doc.select(Render(Generate(doc, e).value)).value| == 1
    ensures QueryFirst(doc, Render(Generate(doc, e).value)).value.node == e.node
  {
  }

  /** The structural position is 1-based and points back at the element: the
      parent's child at `position - 1` is the element, and no earlier child is. */
  lemma PositionPointsBack(guard: Guard, doc: Document, e: Element)
    requires e.parent.Some? && e.node in e.parent.value.children
    requires GenerateWith(guard, doc, e).Some? && GenerateWith(guard, doc, e).value.ByPosition?
    ensures var i := GenerateWith(guard, doc, e).value.position;
            && 1 <= i <= |e.parent.value.children|
            && e.parent.value.children[i - 1] == e.node
            && forall j :: 0 <= j < i - 1 ==> e.parent.value.children[j] != e.node
  {
  }

  /** The rendered index reads back as the position. */
  lemma PositionDigitsReadBack(tag: string, i: nat)
    ensures var s := Render(ByPosition(tag, i));
            var digits := s[|tag| + |":nth-child("| .. |s| - 1];
            && (forall k :: 0 <= k < |digits| ==> Text.IsDigit(digits[k]))
            && Text.ParseDigits(digits) == i
  {
    var s := Render(ByPosition(tag, i));
    assert s[|tag| + |":nth-child("| .. |s| - 1] == Text.NatToString(i);
    Text.ParseNatToString(i);
  }

  // ---------------------------------------------------------------- scenarios

  const NoRect := Rect(0.0, 0.0, 0.0, 0.0)
  const NoStyle := ComputedStyle("", "", "", "", "", "", "")

  function EmptyDocument(elements: seq<Element>): Document {
    Document(elements, s => Some([]), (x, y) => None, 0.0, 0.0)
  }

  /** An element with `id="hero"` is named `#hero`. */
  lemma HeroScenario(guard: Guard, doc: Document)
    ensures var e := Element(1, "SECTION", map["id" := "hero"], ClassString("banner"), "", None, NoRect, NoStyle);
            Synthesize(guard, doc, e) == Some("#hero")
  {
    var e := Element(1, "SECTION", map["id" := "hero"], ClassString("banner"), "", None, NoRect, NoStyle);
    IdWinsLast(guard, doc, e, "hero");
    assert Render(ById("hero")) == "#hero";
  }

  /** Without identity attributes, a class list that resolves to the element
      alone is the answer. */
  lemma UniqueClassesChosen(guard: Guard, doc: Document, e: Element)
    requires NoIdentity(e) && ClassCandidate(e)
    requires doc.select(ClassSelectorText(Text.Words(e.className.value))) == Some([e])
    ensures GenerateWith(guard, doc, e) == Some(ByClasses(Text.Words(e.className.value)))
  {
  }

  /** A class list `btn btn-primary` that only the element carries is named
      `.btn.btn-primary`. */
  lemma ButtonScenario()
    ensures var e := Element(7, "BUTTON", map[], ClassString("btn btn-primary"), "Buy", None, NoRect, NoStyle);
            var doc := Document([e], s => if s == ".btn.btn-primary" then Some([e]) else Some([]), (x, y) => None, 0.0, 0.0);
            Synthesize(CountOnly, doc, e) == Some(".btn.btn-primary")
  {
    var e := Element(7, "BUTTON", map[], ClassString("btn btn-primary"), "Buy", None, NoRect, NoStyle);
    var doc := Document([e], s => if s == ".btn.btn-primary" then Some([e]) else Some([]), (x, y) => None, 0.0, 0.0);
    ButtonWords();
    ButtonSelectorText();
    assert NoIdentity(e) by {
      assert IdentityFrom(e, IdentityAttributes).None?;
    }
    UniqueClassesChosen(CountOnly, doc, e);
  }

  lemma ButtonSelectorText()
    ensures ClassSelectorText(["btn", "btn-primary"]) == ".btn.btn-primary"
  {
  }

  lemma ButtonWords()
    ensures Text.Words("btn btn-primary") == ["btn", "btn-primary"]
  {
    Text.WordsOfJoin(["btn", "btn-primary"]);
    assert Text.Join(["btn", "btn-primary"], " ") == "btn btn-primary";
  }

  /** Without a qualifying identity attribute or a usable string class name only
      the structural strategies remain, whatever other attributes are set. */
  lemma PlainElementIsStructural(guard: Guard, doc: Document, e: Element)
    requires NoIdentity(e) && !ClassCandidate(e)
    ensures e.parent.Some? ==>
              GenerateWith(guard, doc, e)
              == Some(ByPosition(Text.ToLower(e.tagName), IndexOf(e.parent.value.children, e.node) + 1))
    ensures e.parent.None? ==> GenerateWith(guard, doc, e) == Some(ByTag(Text.ToLower(e.tagName)))
  {
    assert IdentityFrom(e, IdentityAttributes).None?;
    assert ClassStep(guard, doc, e) == FallThrough;
  }

  /** The third of four `<li>` without identity attributes or classes is named
      `li:nth-child(3)`. */
  lemma ListItemScenario(guard: Guard, doc: Document)
    ensures var e := Element(12, "LI", map[], ClassString(""), "", Some(ParentLink(9, [10, 11, 12, 13])), NoRect, NoStyle);
            Synthesize(guard, doc, e) == Some("li:nth-child(3)")
  {
    var e := Element(12, "LI", map[], ClassString(""), "", Some(ParentLink(9, [10, 11, 12, 13])), NoRect, NoStyle);
    assert NoIdentity(e) by {
      assert IdentityFrom(e, IdentityAttributes).None?;
    }
    PlainElementIsStructural(guard, doc, e);
    assert IndexOf([10, 11, 12, 13], 12) == 2;
    assert Text.ToLower("LI") == "li";
    ThreeRendered();
  }

  lemma ThreeRendered()
    ensures Render(ByPosition("li", 3)) == "li:nth-child(3)"
  {
    assert Text.NatToString(3) == "3";
  }

  /** An element whose single class token is `a.b`, and another carrying the
      two classes `a` and `b`. */
  const DottedSpan := Element(1, "SPAN", map[], ClassString("a.b"), "", None, NoRect, NoStyle)
  const TwoClassSpan := Element(2, "SPAN", map[], ClassString("a b"), "", None, NoRect, NoStyle)

  /** As written, the guard only counts: the element whose single class token is
      `a.b` gets the selector `.a.b`, which CSS reads as "classes a and b", and
      which therefore resolves to the other element. The corrected guard falls
      through to the tag name instead. */
  lemma CountOnlyResolvesElsewhere(doc: Document)
    requires doc.select(".a.b") == Some([TwoClassSpan])
    ensures GenerateAsWritten(doc, DottedSpan) == Some(ByClasses(["a.b"]))
    ensures Synthesize(CountOnly, doc, DottedSpan) == Some(".a.b")
    ensures QueryFirst(doc, ".a.b") == Some(TwoClassSpan) && TwoClassSpan.node != DottedSpan.node
    ensures Generate(doc, DottedSpan) == Some(ByTag("span"))
    ensures Synthesize(CountAndIdentity, doc, DottedSpan) == Some("span")
  {
    DottedAsWritten(doc);
    DottedCorrected(doc);
  }

  lemma DottedAsWritten(doc: Document)
    requires doc.select(".a.b") == Some([TwoClassSpan])
    ensures GenerateWith(CountOnly, doc, DottedSpan) == Some(ByClasses(["a.b"]))
    ensures Synthesize(CountOnly, doc, DottedSpan) == Some(".a.b")
  {
    DottedAcceptedAsWritten(doc);
    DotRendered();
    RenderedAs(CountOnly, doc, DottedSpan, ByClasses(["a.b"]), ".a.b");
  }

  lemma DottedCorrected(doc: Document)
    requires doc.select(".a.b") == Some([TwoClassSpan])
    ensures GenerateWith(CountAndIdentity, doc, DottedSpan) == Some(ByTag("span"))
    ensures Synthesize(CountAndIdentity, doc, DottedSpan) == Some("span")
  {
    DottedFallsThroughCorrected(doc);
    RenderedAs(CountAndIdentity, doc, DottedSpan, ByTag("span"), "span");
  }

  lemma DottedAcceptedAsWritten(doc: Document)
    requires doc.select(".a.b") == Some([TwoClassSpan])
    ensures GenerateWith(CountOnly, doc, DottedSpan) == Some(ByClasses(["a.b"]))
  {
    DottedClassSteps(doc);
    DottedHasNoIdentity();
  }

  lemma DottedFallsThroughCorrected(doc: Document)
    requires doc.select(".a.b") == Some([TwoClassSpan])
    ensures GenerateWith(CountAndIdentity, doc, DottedSpan) == Some(ByTag("span"))
  {
    DottedClassSteps(doc);
    DottedHasNoIdentity();
    SpanLowered();
  }

  lemma DotRendered()
    ensures Render(ByClasses(["a.b"])) == ".a.b"
  {
  }

  /** The reported string is the rendering of the synthesised selector. */
  lemma RenderedAs(guard: Guard, doc: Document, e: Element, sel: Selector, text: string)
    requires GenerateWith(guard, doc, e) == Some(sel) && Render(sel) == text
    ensures Synthesize(guard, doc, e) == Some(text)
  {
  }

  lemma SpanLowered()
    ensures Text.ToLower("SPAN") == "span"
  {
  }

  lemma DottedHasNoIdentity()
    ensures IdentityFrom(DottedSpan, IdentityAttributes).None?
  {
    assert forall k :: 0 <= k < |IdentityAttributes| ==> !Qualifies(DottedSpan, IdentityAttributes[k]);
  }

  lemma DottedClassSteps(doc: Document)
    requires doc.select(".a.b") == Some([TwoClassSpan])
    ensures ClassStep(CountOnly, doc, DottedSpan) == Accepted(["a.b"])
    ensures ClassStep(CountAndIdentity, doc, DottedSpan) == FallThrough
  {
    assert Text.Words("a.b") == ["a.b"] by {
      Text.WordsOfJoin(["a.b"]);
    }
    assert ClassSelectorText(["a.b"]) == ".a.b";
  }

  /** Splitting a class selector after its leading dot on `.` gives back its
      tokens, provided no token contains a dot; `CountOnlyResolvesElsewhere`
      shows what goes wrong when one does. */
  lemma ClassSelectorReadsBack(tokens: seq<string>)
    requires |tokens| > 0
    requires forall k :: 0 <= k < |tokens| ==> '.' !in tokens[k]
    ensures Text.SplitOn(Render(ByClasses(tokens))[1..], '.') == tokens
  {
    Text.SplitOnJoin(tokens, '.');
  }
}
