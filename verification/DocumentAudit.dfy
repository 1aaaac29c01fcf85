/** The audit of static pages: an event-driven parser that keeps three parallel stacks, their depth
    counters, and the texts a reader can see. */
module DocumentAudit {
  import opened Wrappers

  const VOID_TAGS: set<string> := {
    "area", "base", "br", "col", "embed", "hr", "img", "input", "link", "meta", "param", "source", "track", "wbr"}

  const NON_RENDERED_TAGS: set<string> := {
    "audio", "canvas", "datalist", "head", "iframe", "noembed", "noframes", "noscript", "object", "script",
    "select", "style", "template", "video"}

  const AUDIT_EXCLUDED_TAGS: set<string> := {"head", "script", "style", "template"}

  const ANCESTOR_TAGS: set<string> := {"html", "body", "main", "article", "section", "div"}

  const BREAK_TAGS: set<string> := {
    "address", "article", "aside", "blockquote", "br", "code", "dd", "div", "dl", "dt", "fieldset", "figcaption",
    "figure", "footer", "form", "h1", "h2", "h3", "h4", "h5", "h6", "header", "hr", "li", "main", "nav", "ol", "p",
    "pre", "section", "table", "tbody", "td", "tfoot", "th", "thead", "tr", "ul"}

  predicate IsVoid(tag: string) {
    tag in VOID_TAGS
  }

  predicate IsExcluded(tag: string) {
    tag in AUDIT_EXCLUDED_TAGS
  }

  predicate BreaksText(tag: string) {
    tag in BREAK_TAGS
  }

  const NON_RENDERED_CLASS := "visually-hidden"

  type Attrs = seq<(string, Option<string>)>

  /** What the parser learns from regular expressions and case folding: does a style hide its element,
      does an attribute say "true", which class names does an attribute list? */
  datatype Verdicts = Verdicts(styleHides: string -> bool, saysTrue: string -> bool, classNames: string -> set<string>)

  datatype Violation =
    | DuplicateAttribute | CopyWithoutRelease | NestedRelease | NestedMarkup | PreNotPlain | CodeNotPlain
    | NotCanonical | NotRendered | UntrackedPre | Mismatch | SelfClosing | Unclosed

  datatype Event =
    | Start(tag: string, attrs: Attrs)
    | StartEnd(tag: string, attrs: Attrs)
    | End(tag: string)
    | Data(text: string)

  /** The open elements: their tags with their own hidden flags, and in parallel whether an element is
      excluded from the audit and whether it is an SVG root; beside them the counters. */
  datatype Stacks = Stacks(
    elements: seq<(string, bool)>, audits: seq<bool>, svgs: seq<bool>, hiddenDepth: int, auditDepth: int, svgDepth: int)

  /** An empty `active` means that no release block is open. */
  datatype Release = Release(
    active: string, depth: int, blocks: map<string, seq<string>>, texts: map<string, seq<seq<string>>>)

  datatype Audit = Audit(
    stacks: Stacks, release: Release,
    visible: seq<string>, auditable: seq<string>, untracked: seq<string>, violations: seq<Violation>)

  const Blank := Audit(Stacks([], [], [], 0, 0, 0), Release("", 0, map[], map[]), [], [], [], [])

  /** An open release block has a place for its text. */
  predicate Tracking(r: Release) {
    r.active != "" ==> r.active in r.blocks && r.active in r.texts && r.texts[r.active] != []
  }

  predicate Level(k: Stacks) {
    |k.audits| == |k.elements| && |k.svgs| == |k.elements|
  }

  // ---------------------------------------------------------------------------------------------
  // Attributes
  // ---------------------------------------------------------------------------------------------

  /** The first of several attributes of one name counts. */
  function Values(attrs: Attrs): map<string, string> {
    if attrs == [] then map[]
    else
      var (key, value) := attrs[|attrs| - 1];
      var before := Values(attrs[..|attrs| - 1]);
      if key in before then before else before[key := if value.Some? then value.value else ""]
  }

  function Duplicates(attrs: Attrs): seq<Violation> {
    if attrs == [] then []
    else
      Duplicates(attrs[..|attrs| - 1])
      + if attrs[|attrs| - 1].0 in Values(attrs[..|attrs| - 1]) then [DuplicateAttribute] else []
  }

  function Get(values: map<string, string>, key: string): string {
    if key in values then values[key] else ""
  }

  predicate OwnHidden(v: Verdicts, tag: string, values: map<string, string>) {
    || tag in NON_RENDERED_TAGS
    || NON_RENDERED_CLASS in v.classNames(Get(values, "class"))
    || "hidden" in values
    || v.saysTrue(Get(values, "aria-hidden"))
    || "popover" in values
    || ((tag == "dialog" || tag == "details") && "open" !in values)
    || v.styleHides(Get(values, "style"))
  }

  /** The tag name behind its last colon. */
  function LocalTag(tag: string): string
    decreases |tag|
  {
    if ':' in tag then LocalTag(AfterColon(tag)) else tag
  }

  function AfterColon(tag: string): (r: string)
    requires ':' in tag
    ensures |r| < |tag|
  {
    if tag[0] == ':' then tag[1..] else AfterColon(tag[1..])
  }

  // ---------------------------------------------------------------------------------------------
  // Texts
  // ---------------------------------------------------------------------------------------------

  function AppendLast(texts: seq<seq<string>>, data: string): seq<seq<string>>
    requires texts != []
  {
    texts[|texts| - 1 := texts[|texts| - 1] + [data]]
  }

  function Track(r: Release, data: string): (t: Release)
    requires Tracking(r)
    ensures Tracking(t) && t.active == r.active && t.depth == r.depth
  {
    if r.active == "" then r
    else r.(blocks := r.blocks[r.active := r.blocks[r.active] + [data]],
            texts := r.texts[r.active := AppendLast(r.texts[r.active], data)])
  }

  /** Append a piece of text to what can be seen, and to what is audited. */
  function Emit(s: Audit, data: string, seen: bool, audited: bool): (t: Audit)
    requires Tracking(s.release)
    ensures Tracking(t.release) && t.stacks == s.stacks
  {
    Audit(s.stacks,
          if seen then Track(s.release, data) else s.release,
          if seen then s.visible + [data] else s.visible,
          if audited then s.auditable + [data] else s.auditable,
          if audited && s.release.active == "" then s.untracked + [data] else s.untracked,
          s.violations)
  }

  // ---------------------------------------------------------------------------------------------
  // Steps
  // ---------------------------------------------------------------------------------------------

  function Flag(b: bool): int {
    if b then 1 else 0
  }

  function Push(k: Stacks, tag: string, ownHidden: bool): Stacks {
    Stacks(k.elements + [(tag, ownHidden)], k.audits + [IsExcluded(tag)], k.svgs + [LocalTag(tag) == "svg"],
           k.hiddenDepth + Flag(ownHidden), k.auditDepth + Flag(IsExcluded(tag)),
           k.svgDepth + Flag(LocalTag(tag) == "svg"))
  }

  function Pop(k: Stacks): Stacks
    requires k.elements != [] && Level(k)
  {
    var n := |k.elements| - 1;
    Stacks(k.elements[..n], k.audits[..n], k.svgs[..n], k.hiddenDepth - Flag(k.elements[n].1),
           k.auditDepth - Flag(k.audits[n]), k.svgDepth - Flag(k.svgs[n]))
  }

  /** Only a plain `<pre>` or `<code>` may stand inside a release block. */
  function Inside(tag: string, values: map<string, string>): seq<Violation> {
    (if Get(values, "data-release") != "" then [NestedRelease] else [])
    + if tag == "pre" then (if values == map["tabindex" := "0"] then [] else [PreNotPlain])
      else if tag == "code" then (if values == map[] then [] else [CodeNotPlain])
      else [NestedMarkup]
  }

  predicate CanonicalContainer(v: Verdicts, tag: string, values: map<string, string>) {
    tag == "div" && v.classNames(Get(values, "class")) == {"code-block"}
    && values.Keys == {"class", "data-copy-block", "data-release"}
  }

  predicate CanonicalAncestors(elements: seq<(string, bool)>) {
    forall k | 0 <= k < |elements| - 1 :: elements[k].0 in ANCESTOR_TAGS
  }

  function OpenBlock(r: Release, marker: string): Release {
    Release(marker, 1, if marker in r.blocks then r.blocks else r.blocks[marker := []],
            r.texts[marker := (if marker in r.texts then r.texts[marker] else []) + [[]]])
  }

  function Note(s: Audit, violations: seq<Violation>): Audit {
    s.(violations := s.violations + violations)
  }

  /** The release marker of a start tag whose element is already on the stacks. */
  function Mark(v: Verdicts, s: Audit, tag: string, values: map<string, string>, hidden: bool): (t: Audit)
    requires Tracking(s.release)
    ensures Tracking(t.release) && t.stacks == s.stacks
  {
    var marker := Get(values, "data-release");
    if s.release.active != "" then
      Note(s, Inside(tag, values)).(release := s.release.(depth := s.release.depth + Flag(!IsVoid(tag))))
    else if marker != "" then
      var canonical := CanonicalContainer(v, tag, values) && CanonicalAncestors(s.stacks.elements);
      var noted := Note(s, if canonical then [] else [NotCanonical]);
      if hidden || IsVoid(tag) then Note(noted, [NotRendered])
      else if canonical then noted.(release := OpenBlock(s.release, marker))
      else noted
    else s
  }

  /** A start tag puts its element on the stacks, unless it is void, and breaks the line of its text. */
  function Enter(s: Audit, tag: string, own: bool): (t: Audit)
    requires Tracking(s.release)
    ensures Tracking(t.release) && t.stacks == if IsVoid(tag) then s.stacks else Push(s.stacks, tag, own)
  {
    var pushed := if IsVoid(tag) then s else s.(stacks := Push(s.stacks, tag, own));
    if BreaksText(tag)
    then Emit(pushed, "\n", !(s.stacks.hiddenDepth > 0 || own), !(s.stacks.auditDepth > 0 || IsExcluded(tag)))
    else pushed
  }

  function Open(v: Verdicts, s: Audit, tag: string, attrs: Attrs): (t: Audit)
    requires Tracking(s.release)
    ensures Tracking(t.release)
    ensures t.stacks == if IsVoid(tag) then s.stacks else Push(s.stacks, tag, OwnHidden(v, tag, Values(attrs)))
  {
    hide OwnHidden, Values, Duplicates, Enter, Mark, Push, IsVoid, IsExcluded;
    var values := Values(attrs);
    var own := OwnHidden(v, tag, values);
    var entered := Enter(Note(s, Duplicates(attrs)), tag, own);
    var copied :=
      if "data-copy-block" in values && Get(values, "data-release") == "" then Note(entered, [CopyWithoutRelease]) else entered;
    var marked := Mark(v, copied, tag, values, s.stacks.hiddenDepth > 0 || own);
    if tag == "pre" && !(s.stacks.auditDepth > 0 || IsExcluded(tag)) && marked.release.active == ""
    then Note(marked, [UntrackedPre]) else marked
  }

  predicate Matches(k: Stacks, tag: string) {
    k.elements != [] && k.elements[|k.elements| - 1].0 == tag
  }

  function Leave(r: Release): (t: Release)
    requires Tracking(r)
    ensures Tracking(t)
  {
    if r.active == "" then r
    else if r.depth == 1 then r.(active := "", depth := 0)
    else r.(depth := r.depth - 1)
  }

  /** An end tag that matches breaks the line of its text, and then takes its element off the stacks. */
  function Closed(s: Audit, tag: string): (t: Audit)
    requires Tracking(s.release) && Level(s.stacks) && s.stacks.elements != []
    ensures Tracking(t.release) && t.stacks == Pop(s.stacks)
  {
    hide Emit, Pop, Leave, BreaksText;
    var broken :=
      if BreaksText(tag) then Emit(s, "\n", s.stacks.hiddenDepth == 0, s.stacks.auditDepth == 0) else s;
    broken.(stacks := Pop(s.stacks), release := Leave(broken.release))
  }

  function Close(s: Audit, tag: string): (t: Audit)
    requires Tracking(s.release) && Level(s.stacks)
    ensures Tracking(t.release)
    ensures t.stacks == if IsVoid(tag) || !Matches(s.stacks, tag) then s.stacks else Pop(s.stacks)
  {
    hide Closed, IsVoid;
    if IsVoid(tag) then s else if !Matches(s.stacks, tag) then Note(s, [Mismatch]) else Closed(s, tag)
  }

  predicate Ready(s: Audit) {
    Tracking(s.release) && Level(s.stacks)
  }

  function Next(v: Verdicts, s: Audit, e: Event): (t: Audit)
    requires Ready(s)
    ensures Ready(t)
  {
    hide Open, Close, Emit, OwnHidden, Values, LocalTag;
    match e
    case Start(tag, attrs) => Open(v, s, tag, attrs)
    case StartEnd(tag, attrs) =>
      var t := Open(v, s, tag, attrs);
      if IsVoid(tag) then t else Note(t, [SelfClosing])
    case End(tag) => Close(s, tag)
    case Data(text) => Emit(s, text, s.stacks.hiddenDepth == 0, s.stacks.auditDepth == 0)
  }

  lemma OpenReady(v: Verdicts, s: Audit, tag: string, attrs: Attrs)
    requires Ready(s)
    ensures Ready(Open(v, s, tag, attrs))
  {
    hide Open, Tracking;
  }

  lemma CloseReady(s: Audit, tag: string)
    requires Ready(s)
    ensures Ready(Close(s, tag))
  {
    hide Close, Tracking;
  }

  function Run(v: Verdicts, s: Audit, events: seq<Event>): (t: Audit)
    requires Ready(s)
    ensures Ready(t)
  {
    if events == [] then s else Next(v, Run(v, s, events[..|events| - 1]), events[|events| - 1])
  }

  /** The end of the page; an element that is still open is a violation. */
  function Finished(s: Audit): Audit {
    if s.stacks.elements != [] then Note(s, [Unclosed]) else s
  }

  // ---------------------------------------------------------------------------------------------
  // The parser
  // ---------------------------------------------------------------------------------------------

  class DocumentParser {
    const verdicts: Verdicts
    var elementStack: seq<(string, bool)>
    var auditElementStack: seq<bool>
    var svgElementStack: seq<bool>
    var hiddenDepth: int
    var auditNonrenderedDepth: int
    var svgDepth: int
    var activeRelease: string
    var releaseDepth: int
    var releaseBlocks: map<string, seq<string>>
    var releaseBlockTexts: map<string, seq<seq<string>>>
    var visibleTextParts: seq<string>
    var auditableTextParts: seq<string>
    var untrackedAuditableTextParts: seq<string>
    var violations: seq<Violation>

    ghost function StackView(): Stacks
      reads this
    {
      Stacks(elementStack, auditElementStack, svgElementStack, hiddenDepth, auditNonrenderedDepth, svgDepth)
    }

    ghost function ReleaseView(): Release
      reads this
    {
      Release(activeRelease, releaseDepth, releaseBlocks, releaseBlockTexts)
    }

    ghost function View(): Audit
      reads this
    {
      Audit(StackView(), ReleaseView(), visibleTextParts, auditableTextParts, untrackedAuditableTextParts, violations)
    }

    ghost predicate Valid()
      reads this
    {
      Ready(View())
    }

    constructor (verdicts: Verdicts)
      ensures View() == Blank && Valid() && this.verdicts == verdicts
    {
      this.verdicts := verdicts;
      elementStack, auditElementStack, svgElementStack := [], [], [];
      hiddenDepth, auditNonrenderedDepth, svgDepth := 0, 0, 0;
      activeRelease, releaseDepth, releaseBlocks, releaseBlockTexts := "", 0, map[], map[];
      visibleTextParts, auditableTextParts, untrackedAuditableTextParts, violations := [], [], [], [];
    }

    method AppendVisibleText(data: string)
      requires Tracking(ReleaseView())
      modifies this`visibleTextParts, this`releaseBlocks, this`releaseBlockTexts
      ensures visibleTextParts == old(visibleTextParts) + [data] && ReleaseView() == Track(old(ReleaseView()), data)
    {
      visibleTextParts := visibleTextParts + [data];
      if activeRelease != "" {
        releaseBlocks := releaseBlocks[activeRelease := releaseBlocks[activeRelease] + [data]];
        releaseBlockTexts := releaseBlockTexts[activeRelease := AppendLast(releaseBlockTexts[activeRelease], data)];
      }
    }

    method AppendAuditableText(data: string)
      modifies this`auditableTextParts, this`untrackedAuditableTextParts
      ensures auditableTextParts == old(auditableTextParts) + [data]
      ensures untrackedAuditableTextParts == old(untrackedAuditableTextParts) + if activeRelease == "" then [data] else []
    {
      auditableTextParts := auditableTextParts + [data];
      if activeRelease == "" {
        untrackedAuditableTextParts := untrackedAuditableTextParts + [data];
      }
    }

    method EmitText(data: string, seen: bool, audited: bool)
      requires Tracking(ReleaseView())
      modifies this`visibleTextParts, this`releaseBlocks, this`releaseBlockTexts,
               this`auditableTextParts, this`untrackedAuditableTextParts
      ensures View() == Emit(old(View()), data, seen, audited)
    {
      if seen {
        AppendVisibleText(data);
      }
      if audited {
        AppendAuditableText(data);
      }
    }

    /** The loop over the attributes: first wins, repetitions are violations. */
    method CollectValues(attrs: Attrs) returns (values: map<string, string>)
      modifies this`violations
      ensures values == Values(attrs) && violations == old(violations) + Duplicates(attrs)
    {
      values := map[];
      for k := 0 to |attrs|
        invariant values == Values(attrs[..k]) && violations == old(violations) + Duplicates(attrs[..k])
      {
        var (key, value) := attrs[k];
        assert attrs[..k + 1][..k] == attrs[..k];
        if key in values {
          violations := violations + [DuplicateAttribute];
        } else {
          values := values[key := if value.Some? then value.value else ""];
        }
      }
      assert attrs[..|attrs|] == attrs;
    }

    method PushElement(tag: string, ownHidden: bool)
      modifies this`elementStack, this`auditElementStack, this`svgElementStack,
               this`hiddenDepth, this`auditNonrenderedDepth, this`svgDepth
      ensures StackView() == Push(old(StackView()), tag, ownHidden)
    {
      hide LocalTag, IsExcluded;
      elementStack := elementStack + [(tag, ownHidden)];
      var ownExcluded := IsExcluded(tag);
      auditElementStack := auditElementStack + [ownExcluded];
      var ownSvg := LocalTag(tag) == "svg";
      svgElementStack := svgElementStack + [ownSvg];
      if ownHidden {
        hiddenDepth := hiddenDepth + 1;
      }
      if ownExcluded {
        auditNonrenderedDepth := auditNonrenderedDepth + 1;
      }
      if ownSvg {
        svgDepth := svgDepth + 1;
      }
    }

    method PopElement()
      requires elementStack != [] && Level(StackView())
      modifies this`elementStack, this`auditElementStack, this`svgElementStack,
               this`hiddenDepth, this`auditNonrenderedDepth, this`svgDepth
      ensures StackView() == Pop(old(StackView()))
    {
      var last := |elementStack| - 1;
      if elementStack[last].1 {
        hiddenDepth := hiddenDepth - 1;
      }
      if auditElementStack[last] {
        auditNonrenderedDepth := auditNonrenderedDepth - 1;
      }
      if svgElementStack[last] {
        svgDepth := svgDepth - 1;
      }
      elementStack := elementStack[..last];
      auditElementStack := auditElementStack[..last];
      svgElementStack := svgElementStack[..last];
    }

    method OpenReleaseBlock(marker: string)
      modifies this`activeRelease, this`releaseDepth, this`releaseBlocks, this`releaseBlockTexts
      ensures ReleaseView() == OpenBlock(old(ReleaseView()), marker)
    {
      activeRelease := marker;
      releaseDepth := 1;
      if marker !in releaseBlocks {
        releaseBlocks := releaseBlocks[marker := []];
      }
      var texts := if marker in releaseBlockTexts then releaseBlockTexts[marker] else [];
      releaseBlockTexts := releaseBlockTexts[marker := texts + [[]]];
    }

    method MarkRelease(tag: string, values: map<string, string>, hidden: bool)
      requires Tracking(ReleaseView())
      modifies this`violations, this`activeRelease, this`releaseDepth, this`releaseBlocks, this`releaseBlockTexts
      ensures View() == Mark(verdicts, old(View()), tag, values, hidden)
    {
      hide OpenBlock, Inside, CanonicalContainer, CanonicalAncestors, IsVoid;
      var marker := Get(values, "data-release");
      if activeRelease != "" {
        violations := violations + Inside(tag, values);
        if !IsVoid(tag) {
          releaseDepth := releaseDepth + 1;
        }
      } else if marker != "" {
        var canonical := CanonicalContainer(verdicts, tag, values) && CanonicalAncestors(elementStack);
        if !canonical {
          violations := violations + [NotCanonical];
        }
        if hidden || IsVoid(tag) {
          violations := violations + [NotRendered];
        } else if canonical {
          OpenReleaseBlock(marker);
        }
      }
    }

    method EnterElement(tag: string, ownHidden: bool)
      requires Tracking(ReleaseView())
      modifies this
      ensures View() == Enter(old(View()), tag, ownHidden)
    {
      hide LocalTag, Emit, Push, IsVoid, IsExcluded, BreaksText;
      var hidden := hiddenDepth > 0 || ownHidden;
      var excluded := auditNonrenderedDepth > 0 || IsExcluded(tag);
      if !IsVoid(tag) {
        PushElement(tag, ownHidden);
      }
      if BreaksText(tag) {
        EmitText("\n", !hidden, !excluded);
      }
    }

    method HandleStartTag(tag: string, attrs: Attrs)
      requires Valid()
      modifies this
      ensures View() == Open(verdicts, old(View()), tag, attrs) && Valid()
    {
      OpenReady(verdicts, View(), tag, attrs);
      assert Tracking(ReleaseView());
      hide OwnHidden, Values, Duplicates, Enter, Mark, Tracking, Ready, IsExcluded;
      var values := CollectValues(attrs);
      var ownHidden := OwnHidden(verdicts, tag, values);
      var hidden := hiddenDepth > 0 || ownHidden;
      var excluded := auditNonrenderedDepth > 0 || IsExcluded(tag);
      EnterElement(tag, ownHidden);
      if "data-copy-block" in values && Get(values, "data-release") == "" {
        violations := violations + [CopyWithoutRelease];
      }
      MarkRelease(tag, values, hidden);
      if tag == "pre" && !excluded && activeRelease == "" {
        violations := violations + [UntrackedPre];
      }
    }

    method HandleStartEndTag(tag: string, attrs: Attrs)
      requires Valid()
      modifies this
      ensures View() == Next(verdicts, old(View()), StartEnd(tag, attrs)) && Valid()
    {
      hide Open, Tracking;
      HandleStartTag(tag, attrs);
      if !IsVoid(tag) {
        violations := violations + [SelfClosing];
      }
    }

    method LeaveRelease()
      requires Tracking(ReleaseView())
      modifies this`activeRelease, this`releaseDepth
      ensures ReleaseView() == Leave(old(ReleaseView()))
    {
      if activeRelease != "" {
        releaseDepth := releaseDepth - 1;
        if releaseDepth == 0 {
          activeRelease := "";
        }
      }
    }

    method CloseElement(tag: string)
      requires Tracking(ReleaseView()) && Level(StackView()) && elementStack != []
      modifies this
      ensures View() == Closed(old(View()), tag)
    {
      hide Emit, Leave, Pop, Tracking, BreaksText;
      if BreaksText(tag) {
        EmitText("\n", hiddenDepth == 0, auditNonrenderedDepth == 0);
      }
      LeaveRelease();
      PopElement();
    }

    method HandleEndTag(tag: string)
      requires Valid()
      modifies this
      ensures View() == Close(old(View()), tag) && Valid()
    {
      CloseReady(View(), tag);
      hide Closed, Tracking, Level, IsVoid;
      if IsVoid(tag) {
        return;
      }
      if elementStack == [] || elementStack[|elementStack| - 1].0 != tag {
        violations := violations + [Mismatch];
        return;
      }
      CloseElement(tag);
    }

    method HandleData(text: string)
      requires Valid()
      modifies this
      ensures View() == Next(verdicts, old(View()), Data(text)) && Valid()
    {
      hide Emit, Tracking;
      EmitText(text, hiddenDepth == 0, auditNonrenderedDepth == 0);
    }

    method Handle(e: Event)
      requires Valid()
      modifies this
      ensures View() == Next(verdicts, old(View()), e) && Valid()
    {
      hide Open, Close, Ready;
      match e
      case Start(tag, attrs) => HandleStartTag(tag, attrs);
      case StartEnd(tag, attrs) => HandleStartEndTag(tag, attrs);
      case End(tag) => HandleEndTag(tag);
      case Data(text) => HandleData(text);
    }

    /** All events of a page, one after the other. */
    method Feed(events: seq<Event>)
      requires Valid()
      modifies this
      ensures View() == Run(verdicts, old(View()), events) && Valid()
    {
      hide Next, Ready;
      for k := 0 to |events|
        invariant Valid() && View() == Run(verdicts, old(View()), events[..k])
      {
        assert events[..k + 1][..k] == events[..k];
        Handle(events[k]);
      }
      assert events[..|events|] == events;
    }

    /** At the end of the page. */
    method Finish()
      requires Valid()
      modifies this`violations
      ensures View() == Finished(old(View())) && Valid()
    {
      if elementStack != [] {
        violations := violations + [Unclosed];
      }
    }
  }
}
