/** The audit parser in terms of the page itself: its raw attributes, and the elements around a text. */
module DocumentReading {
  import opened Wrappers
  import opened DocumentAudit
  import opened DocumentAuditSafety
  import opened DocumentTree

  // ---------------------------------------------------------------------------------------------
  // Attributes
  // ---------------------------------------------------------------------------------------------

  predicate Occurs(attrs: Attrs, key: string) {
    exists k :: 0 <= k < |attrs| && attrs[k].0 == key
  }

  /** The text of the first attribute of this name; empty if it has none, or if there is none. */
  function FirstText(attrs: Attrs, key: string): string {
    if attrs == [] then ""
    else if attrs[0].0 == key then (match attrs[0].1 case Some(text) => text case None => "")
    else FirstText(attrs[1..], key)
  }

  lemma {:induction false} FirstTextMore(attrs: Attrs, last: (string, Option<string>), key: string)
    ensures FirstText(attrs + [last], key) ==
            if Occurs(attrs, key) || last.0 != key then FirstText(attrs, key)
            else match last.1 case Some(text) => text case None => ""
    decreases |attrs|
  {
    if attrs == [] {
      assert attrs + [last] == [last] && [last][1..] == [];
    } else {
      FirstTextMore(attrs[1..], last, key);
      assert (attrs + [last])[1..] == attrs[1..] + [last];
      assert Occurs(attrs, key) <==> attrs[0].0 == key || Occurs(attrs[1..], key) by {
        assert forall k | 0 < k < |attrs| :: attrs[1..][k - 1] == attrs[k];
        assert forall k | 0 <= k < |attrs| - 1 :: attrs[1..][k] == attrs[k + 1];
      }
    }
  }

  /** The parser's table of values has every name that occurs, with the text of its first attribute. */
  lemma {:induction false} ValuesExactly(attrs: Attrs, key: string)
    ensures key in Values(attrs) <==> Occurs(attrs, key)
    ensures Get(Values(attrs), key) == FirstText(attrs, key)
    decreases |attrs|
  {
    if attrs != [] {
      var n := |attrs| - 1;
      ValuesExactly(attrs[..n], key);
      FirstTextMore(attrs[..n], attrs[n], key);
      assert attrs[..n] + [attrs[n]] == attrs;
      assert Occurs(attrs, key) <==> Occurs(attrs[..n], key) || attrs[n].0 == key by {
        assert forall k | 0 <= k < n :: attrs[..n][k] == attrs[k];
      }
      ValuesMore(attrs);
    }
  }

  lemma ValuesMore(attrs: Attrs)
    requires attrs != []
    ensures var (n, before) := (|attrs| - 1, Values(attrs[..|attrs| - 1]));
            var (key, value) := attrs[n];
            Values(attrs) == if key in before then before else before[key := if value.Some? then value.value else ""]
  {
  }

  /** The attributes that repeat an earlier one. */
  function Repetitions(attrs: Attrs): set<nat> {
    set k, j | 0 <= j < k < |attrs| && attrs[j].0 == attrs[k].0 :: k
  }

  lemma RepetitionsMore(attrs: Attrs)
    requires attrs != []
    ensures var n := |attrs| - 1;
            && Repetitions(attrs) == Repetitions(attrs[..n]) + (if Occurs(attrs[..n], attrs[n].0) then {n} else {})
            && n !in Repetitions(attrs[..n])
  {
    var n := |attrs| - 1;
    assert forall k | 0 <= k < n :: attrs[..n][k] == attrs[k];
    assert Occurs(attrs[..n], attrs[n].0) <==> exists j :: 0 <= j < n && attrs[j].0 == attrs[n].0;
  }

  lemma DuplicatesMore(attrs: Attrs)
    requires attrs != []
    ensures var n := |attrs| - 1;
            Duplicates(attrs) == Duplicates(attrs[..n]) + if Occurs(attrs[..n], attrs[n].0) then [DuplicateAttribute] else []
  {
    ValuesExactly(attrs[..|attrs| - 1], attrs[|attrs| - 1].0);
    hide Values, Occurs;
  }

  /** Each of them is one violation. */
  lemma {:induction false} RepetitionsAreViolations(attrs: Attrs)
    ensures Duplicates(attrs) == seq(|Repetitions(attrs)|, _ => DuplicateAttribute)
    decreases |attrs|
  {
    if attrs == [] {
      assert Repetitions(attrs) == {};
    } else {
      hide Duplicates, Repetitions, Occurs;
      RepetitionsAreViolations(attrs[..|attrs| - 1]);
      RepetitionsMore(attrs);
      DuplicatesMore(attrs);
    }
  }

  // ---------------------------------------------------------------------------------------------
  // What hides an element
  // ---------------------------------------------------------------------------------------------

  /** The element is one whose text is not rendered, or one of its attributes hides it: the hidden class, `hidden`,
      `popover`, a true `aria-hidden`, a hiding style, or a missing `open` where it is needed. */
  predicate Hides(v: Verdicts, tag: string, attrs: Attrs) {
    || tag in {"audio", "canvas", "datalist", "head", "iframe", "noembed", "noframes", "noscript", "object", "script",
               "select", "style", "template", "video"}
    || "visually-hidden" in v.classNames(FirstText(attrs, "class"))
    || Occurs(attrs, "hidden") || Occurs(attrs, "popover")
    || v.saysTrue(FirstText(attrs, "aria-hidden"))
    || v.styleHides(FirstText(attrs, "style"))
    || (tag in {"dialog", "details"} && !Occurs(attrs, "open"))
  }

  lemma HidesExactly(v: Verdicts, tag: string, attrs: Attrs)
    ensures OwnHidden(v, tag, Values(attrs)) <==> Hides(v, tag, attrs)
  {
    hide Values, Get, FirstText, Occurs;
    ValuesExactly(attrs, "class");
    ValuesExactly(attrs, "hidden");
    ValuesExactly(attrs, "popover");
    ValuesExactly(attrs, "aria-hidden");
    ValuesExactly(attrs, "style");
    ValuesExactly(attrs, "open");
  }

  /** A start tag puts its element on the stack, unless it is void, with the flag whether it hides its text. */
  lemma StartPushes(v: Verdicts, s: Audit, tag: string, attrs: Attrs)
    requires Ready(s)
    ensures Next(v, s, Start(tag, attrs)).stacks.elements ==
            if tag in {"area", "base", "br", "col", "embed", "hr", "img", "input", "link", "meta", "param", "source", "track", "wbr"}
            then s.stacks.elements
            else s.stacks.elements + [(tag, Hides(v, tag, attrs))]
  {
    NextStart(v, s, tag, attrs);
    HidesExactly(v, tag, attrs);
    hide Next, Open, OwnHidden, Values, Hides, LocalTag, IsExcluded;
  }

  /** Some open element hides its text. */
  predicate SomeHides(elements: seq<(string, bool)>) {
    exists k :: 0 <= k < |elements| && elements[k].1
  }

  /** Some open element is one of the four inert containers. */
  predicate SomeInert(elements: seq<(string, bool)>) {
    exists k :: 0 <= k < |elements| && elements[k].0 in {"head", "script", "style", "template"}
  }

  lemma CountersExactly(k: Stacks)
    requires Stacked(k)
    ensures k.hiddenDepth == 0 <==> !SomeHides(k.elements)
    ensures k.auditDepth == 0 <==> !SomeInert(k.elements)
  {
    hide Count, LocalTag;
    CountPositive(HiddenFlags(k.elements));
    CountPositive(k.audits);
    assert forall i | 0 <= i < |k.elements| :: HiddenFlags(k.elements)[i] == k.elements[i].1;
    assert forall i | 0 <= i < |k.elements| :: k.audits[i] <==> k.elements[i].0 in {"head", "script", "style", "template"};
  }

  lemma DataAdds(v: Verdicts, s: Audit, text: string)
    requires Ready(s)
    ensures var t := Next(v, s, Data(text));
            && t.visible == s.visible + (if s.stacks.hiddenDepth == 0 then [text] else [])
            && t.auditable == s.auditable + (if s.stacks.auditDepth == 0 then [text] else [])
  {
    hide Next;
    NextAdds(v, s, Data(text));
  }

  /** In every reachable state a piece of text is shown if and only if no open element hides it, and audited if and only if
      none is one of the four inert containers. */
  lemma TextShownExactly(v: Verdicts, events: seq<Event>, text: string)
    ensures var s := Run(v, Blank, events);
            var t := Next(v, s, Data(text));
            && t.visible == s.visible + (if SomeHides(s.stacks.elements) then [] else [text])
            && t.auditable == s.auditable + (if SomeInert(s.stacks.elements) then [] else [text])
  {
    hide Run, Next, SomeHides, SomeInert, Stacked, Subsequence;
    NothingEscapes(v, events);
    CountersExactly(Run(v, Blank, events).stacks);
    DataAdds(v, Run(v, Blank, events), text);
  }

  // ---------------------------------------------------------------------------------------------
  // What is left of a tree
  // ---------------------------------------------------------------------------------------------

  /** Elements that stand on lines of their own. */
  predicate BreaksLine(tag: string) {
    tag in {"address", "article", "aside", "blockquote", "br", "code", "dd", "div", "dl", "dt", "fieldset", "figcaption",
            "figure", "footer", "form", "h1", "h2", "h3", "h4", "h5", "h6", "header", "hr", "li", "main", "nav", "ol", "p",
            "pre", "section", "table", "tbody", "td", "tfoot", "th", "thead", "tr", "ul"}
  }

  /** The texts of a tree from which every element that hides its text is cut off. */
  function Pruned(v: Verdicts, n: Node): seq<string> {
    match n
    case Text(text) => [text]
    case Element(tag, attrs, children) =>
      if Hides(v, tag, attrs) then []
      else
        var lines := if BreaksLine(tag) then ["\n"] else [];
        if IsVoid(tag) then lines else lines + PrunedAll(v, children) + lines
  }

  function PrunedAll(v: Verdicts, nodes: seq<Node>): seq<string> {
    if nodes == [] then [] else PrunedAll(v, nodes[..|nodes| - 1]) + Pruned(v, nodes[|nodes| - 1])
  }

  /** Below something hidden nothing is seen; otherwise the tree is seen but for the elements cut off. */
  lemma {:induction false} SeesPruned(v: Verdicts, n: Node)
    ensures Visible(v, n, true) == [] && Visible(v, n, false) == Pruned(v, n)
    decreases n, 0
  {
    hide OwnHidden, Values, Hides, IsVoid;
    match n
    case Text(text) =>
    case Element(tag, attrs, children) =>
      HidesExactly(v, tag, attrs);
      SeesAllPruned(v, children);
  }

  lemma {:induction false} SeesAllPruned(v: Verdicts, nodes: seq<Node>)
    ensures VisibleAll(v, nodes, true) == [] && VisibleAll(v, nodes, false) == PrunedAll(v, nodes)
    decreases nodes, 1
  {
    hide Visible, Pruned;
    if nodes != [] {
      SeesAllPruned(v, nodes[..|nodes| - 1]);
      SeesPruned(v, nodes[|nodes| - 1]);
    }
  }

  /** The texts of a tree without the four inert containers. */
  function Authored(n: Node): seq<string> {
    match n
    case Text(text) => [text]
    case Element(tag, attrs, children) =>
      if tag in {"head", "script", "style", "template"} then []
      else
        var lines := if BreaksLine(tag) then ["\n"] else [];
        if IsVoid(tag) then lines else lines + AuthoredAll(children) + lines
  }

  function AuthoredAll(nodes: seq<Node>): seq<string> {
    if nodes == [] then [] else AuthoredAll(nodes[..|nodes| - 1]) + Authored(nodes[|nodes| - 1])
  }

  lemma {:induction false} AuditsAuthored(n: Node)
    ensures Auditable(n, true) == [] && Auditable(n, false) == Authored(n)
    decreases n, 0
  {
    hide IsVoid;
    match n
    case Text(text) =>
    case Element(tag, attrs, children) => AuditsAllAuthored(children);
  }

  lemma {:induction false} AuditsAllAuthored(nodes: seq<Node>)
    ensures AuditableAll(nodes, true) == [] && AuditableAll(nodes, false) == AuthoredAll(nodes)
    decreases nodes, 1
  {
    hide Auditable, Authored;
    if nodes != [] {
      AuditsAllAuthored(nodes[..|nodes| - 1]);
      AuditsAuthored(nodes[|nodes| - 1]);
    }
  }

  /** From every state the events of a tree restore the stacks. They add to the visible text the tree without the elements that
      hide theirs, or nothing if an open element hides it, and to the audited text the tree without the four inert
      containers, or nothing inside one of them. */
  lemma ParsesPruned(v: Verdicts, s: Audit, n: Node)
    requires Ready(s) && Stacked(s.stacks)
    ensures var t := Run(v, s, Serialize(n));
            && t.stacks == s.stacks
            && t.visible == s.visible + (if SomeHides(s.stacks.elements) then [] else Pruned(v, n))
            && t.auditable == s.auditable + (if SomeInert(s.stacks.elements) then [] else Authored(n))
  {
    hide Run, Serialize, Visible, Auditable, Pruned, Authored, Stacked, Ready, SomeHides, SomeInert;
    ExcludedMeansHidden(s.stacks);
    CountersExactly(s.stacks);
    ParsesNode(v, s, n);
    SeesPruned(v, n);
    AuditsAuthored(n);
  }

  /** A page without a violation of nesting is a forest; its visible text is that of the forest without the elements that hide
      theirs, and its audited text that of the forest without the four inert containers. */
  lemma CleanPagesRead(v: Verdicts, events: seq<Event>) returns (forest: seq<Node>)
    requires IsClean(Finished(Run(v, Blank, events)))
    ensures SerializeAll(forest) == Plain(events)
    ensures Run(v, Blank, events).visible == PrunedAll(v, forest)
    ensures Run(v, Blank, events).auditable == AuthoredAll(forest)
  {
    hide Run, Plain, IsClean;
    forest := CleanPagesAreTrees(v, events);
    SeesAllPruned(v, forest);
    AuditsAllAuthored(forest);
  }

  // ---------------------------------------------------------------------------------------------
  // Release blocks
  // ---------------------------------------------------------------------------------------------

  /** The one container that may open a block: a `div` of exactly this class and these attributes, below plain containers. */
  ghost predicate IsContainer(v: Verdicts, elements: seq<(string, bool)>, tag: string, attrs: Attrs) {
    && tag == "div" && v.classNames(FirstText(attrs, "class")) == {"code-block"}
    && (forall key :: Occurs(attrs, key) <==> key in {"class", "data-copy-block", "data-release"})
    && forall k | 0 <= k < |elements| :: elements[k].0 in {"html", "body", "main", "article", "section", "div"}
  }

  lemma ContainerExactly(v: Verdicts, elements: seq<(string, bool)>, tag: string, attrs: Attrs, own: bool)
    ensures CanonicalContainer(v, tag, Values(attrs)) && CanonicalAncestors(elements + [(tag, own)]) <==>
              IsContainer(v, elements, tag, attrs)
  {
    hide Values, FirstText, Occurs, Get;
    ValuesExactly(attrs, "class");
    forall key
      ensures key in Values(attrs).Keys <==> Occurs(attrs, key)
    {
      ValuesExactly(attrs, key);
    }
    assert forall k | 0 <= k < |elements| :: (elements + [(tag, own)])[k] == elements[k];
    assert Values(attrs).Keys == {"class", "data-copy-block", "data-release"} <==>
        forall key :: key in Values(attrs).Keys <==> key in {"class", "data-copy-block", "data-release"};
  }

  /** The violations of a start tag, in their order. */
  ghost function StartViolations(v: Verdicts, s: Audit, tag: string, attrs: Attrs): seq<Violation> {
    var marked := FirstText(attrs, "data-release") != "";
    var hidden := s.stacks.hiddenDepth > 0 || Hides(v, tag, attrs);
    var audited := s.stacks.auditDepth <= 0 && tag !in {"head", "script", "style", "template"};
    seq(|Repetitions(attrs)|, _ => DuplicateAttribute)
    + (if Occurs(attrs, "data-copy-block") && !marked then [CopyWithoutRelease] else [])
    + (if s.release.active == "" then
         (if marked && !IsContainer(v, s.stacks.elements, tag, attrs) then [NotCanonical] else [])
         + (if marked && (hidden || IsVoid(tag)) then [NotRendered] else [])
       else
         (if marked then [NestedRelease] else [])
         + (if tag !in {"pre", "code"} then [NestedMarkup]
            else if tag == "pre" && !(FirstText(attrs, "tabindex") == "0" && forall k | 0 <= k < |attrs| :: attrs[k].0 == "tabindex")
            then [PreNotPlain]
            else if tag == "code" && attrs != [] then [CodeNotPlain]
            else []))
    + (if tag == "pre" && audited && s.release.active == "" then [UntrackedPre] else [])
  }

  lemma PlainPre(attrs: Attrs)
    ensures Values(attrs) == map["tabindex" := "0"] <==>
              FirstText(attrs, "tabindex") == "0" && forall k | 0 <= k < |attrs| :: attrs[k].0 == "tabindex"
  {
    hide Values, FirstText;
    forall key
      ensures key in Values(attrs) <==> Occurs(attrs, key)
      ensures Get(Values(attrs), key) == FirstText(attrs, key)
    {
      ValuesExactly(attrs, key);
    }
    var values := Values(attrs);
    if FirstText(attrs, "tabindex") == "0" && forall k | 0 <= k < |attrs| :: attrs[k].0 == "tabindex" {
      assert "tabindex" in values && values["tabindex"] == "0";
      assert values.Keys == {"tabindex"};
      assert values == map["tabindex" := "0"];
    }
    if values == map["tabindex" := "0"] {
      forall k | 0 <= k < |attrs|
        ensures attrs[k].0 == "tabindex"
      {
        assert Occurs(attrs, attrs[k].0);
        assert attrs[k].0 in values;
      }
      assert Get(values, "tabindex") == "0";
    }
  }

  lemma PlainCode(attrs: Attrs)
    ensures Values(attrs) == map[] <==> attrs == []
  {
    hide Values;
    if attrs != [] {
      ValuesExactly(attrs, attrs[0].0);
      assert Occurs(attrs, attrs[0].0);
      assert attrs[0].0 in Values(attrs);
    } else {
      ValuesMoreNone();
    }
  }

  lemma ValuesMoreNone()
    ensures Values([]) == map[]
  {
  }

  lemma InsideExactly(tag: string, attrs: Attrs)
    ensures Inside(tag, Values(attrs)) ==
            (if FirstText(attrs, "data-release") != "" then [NestedRelease] else [])
            + (if tag !in {"pre", "code"} then [NestedMarkup]
               else if tag == "pre" && !(FirstText(attrs, "tabindex") == "0" && forall k | 0 <= k < |attrs| :: attrs[k].0 == "tabindex")
               then [PreNotPlain]
               else if tag == "code" && attrs != [] then [CodeNotPlain]
               else [])
  {
    hide Values, FirstText;
    ValuesExactly(attrs, "data-release");
    PlainPre(attrs);
    PlainCode(attrs);
  }

  /** Before its marker is looked at, what a start tag has done. */
  lemma EnterLeavesRest(s: Audit, tag: string, own: bool)
    requires Tracking(s.release)
    ensures var t := Enter(s, tag, own);
            && t.violations == s.violations && t.release.active == s.release.active
            && (!IsVoid(tag) ==> t.stacks.elements == s.stacks.elements + [(tag, own)])
  {
    hide BreaksText, IsExcluded, IsVoid, LocalTag, Track;
  }

  /** A start tag is entered, noted, and then marked. */
  lemma OpenIsMarked(v: Verdicts, s: Audit, tag: string, attrs: Attrs) returns (copied: Audit)
    requires Ready(s)
    ensures Tracking(copied.release) && copied.release.active == s.release.active
    ensures !IsVoid(tag) ==> copied.stacks.elements == s.stacks.elements + [(tag, Hides(v, tag, attrs))]
    ensures copied.violations == s.violations + Duplicates(attrs)
                                 + if Occurs(attrs, "data-copy-block") && FirstText(attrs, "data-release") == "" then [CopyWithoutRelease] else []
    ensures var marked := Mark(v, copied, tag, Values(attrs), s.stacks.hiddenDepth > 0 || Hides(v, tag, attrs));
            var t := Open(v, s, tag, attrs);
            && t.release == marked.release
            && t.violations == marked.violations
                               + if tag == "pre" && !(s.stacks.auditDepth > 0 || IsExcluded(tag)) && marked.release.active == ""
                                 then [UntrackedPre] else []
  {
    hide OwnHidden, Values, Hides, FirstText, Occurs, Enter, Mark, Get, Duplicates, IsVoid, IsExcluded, Push;
    HidesExactly(v, tag, attrs);
    ValuesExactly(attrs, "data-release");
    ValuesExactly(attrs, "data-copy-block");
    var own := OwnHidden(v, tag, Values(attrs));
    EnterLeavesRest(Note(s, Duplicates(attrs)), tag, own);
    copied := Enter(Note(s, Duplicates(attrs)), tag, own);
    if "data-copy-block" in Values(attrs) && Get(Values(attrs), "data-release") == "" {
      copied := Note(copied, [CopyWithoutRelease]);
    }
  }

  lemma MarkOpensExactly(v: Verdicts, s: Audit, elements: seq<(string, bool)>, tag: string, attrs: Attrs, hidden: bool, own: bool)
    requires Tracking(s.release) && (!IsVoid(tag) ==> s.stacks.elements == elements + [(tag, own)])
    ensures var t, marker := Mark(v, s, tag, Values(attrs), hidden), FirstText(attrs, "data-release");
            if s.release.active != "" then t.release.active == s.release.active
            else if marker != "" && IsContainer(v, elements, tag, attrs) && !hidden
            then t.release.active == marker && t.release.depth == 1
            else t.release.active == ""
  {
    hide Values, Hides, FirstText, Occurs, IsContainer, CanonicalAncestors, CanonicalContainer, Inside, Get, IsVoid;
    ValuesExactly(attrs, "data-release");
    ContainerExactly(v, elements, tag, attrs, own);
    ContainerIsDiv(v, elements, tag, attrs);
  }

  lemma ContainerIsDiv(v: Verdicts, elements: seq<(string, bool)>, tag: string, attrs: Attrs)
    ensures CanonicalContainer(v, tag, Values(attrs)) || IsContainer(v, elements, tag, attrs) ==> tag == "div" && !IsVoid(tag)
  {
    hide Values, FirstText, Occurs;
  }

  /** A start tag opens a block if and only if none is open, it is marked, its element is the one container, not void, and
      nothing hides it; the block is then that of its mark. No other block is ever opened. */
  lemma StartOpensExactly(v: Verdicts, s: Audit, tag: string, attrs: Attrs)
    requires Ready(s)
    ensures var t, marker := Next(v, s, Start(tag, attrs)), FirstText(attrs, "data-release");
            if s.release.active != "" then t.release.active == s.release.active
            else if marker != "" && IsContainer(v, s.stacks.elements, tag, attrs) && s.stacks.hiddenDepth <= 0 && !Hides(v, tag, attrs)
            then t.release.active == marker && t.release.depth == 1
            else t.release.active == ""
  {
    hide Next, Open, Mark, Values, Hides, FirstText, Occurs, IsContainer, Duplicates, IsVoid, IsExcluded, Tracking;
    NextStart(v, s, tag, attrs);
    var copied := OpenIsMarked(v, s, tag, attrs);
    MarkOpensExactly(v, copied, s.stacks.elements, tag, attrs, s.stacks.hiddenDepth > 0 || Hides(v, tag, attrs), Hides(v, tag, attrs));
  }

  /** What the release marker of a start tag adds to them. */
  ghost function MarkViolations(v: Verdicts, s: Audit, tag: string, attrs: Attrs): seq<Violation> {
    var marked := FirstText(attrs, "data-release") != "";
    if s.release.active == "" then
      (if marked && !IsContainer(v, s.stacks.elements, tag, attrs) then [NotCanonical] else [])
      + (if marked && (s.stacks.hiddenDepth > 0 || Hides(v, tag, attrs) || IsVoid(tag)) then [NotRendered] else [])
    else Inside(tag, Values(attrs))
  }

  lemma MarkViolates(v: Verdicts, s: Audit, before: Audit, tag: string, attrs: Attrs, own: bool)
    requires Tracking(s.release) && s.release.active == before.release.active
    requires !IsVoid(tag) ==> s.stacks.elements == before.stacks.elements + [(tag, own)]
    ensures Mark(v, s, tag, Values(attrs), before.stacks.hiddenDepth > 0 || Hides(v, tag, attrs)).violations
         == s.violations + MarkViolations(v, before, tag, attrs)
  {
    hide Values, Hides, FirstText, Occurs, IsContainer, CanonicalAncestors, CanonicalContainer, Inside, Get, IsVoid, OpenBlock;
    ValuesExactly(attrs, "data-release");
    ContainerExactly(v, before.stacks.elements, tag, attrs, own);
    ContainerIsDiv(v, before.stacks.elements, tag, attrs);
  }

  /** Exactly these violations are noted at a start tag. */
  lemma StartViolates(v: Verdicts, s: Audit, tag: string, attrs: Attrs)
    requires Ready(s)
    ensures Next(v, s, Start(tag, attrs)).violations == s.violations + StartViolations(v, s, tag, attrs)
  {
    hide Next, Open, Mark, Values, Hides, FirstText, Occurs, IsContainer, Inside, Duplicates, Repetitions, IsVoid, IsExcluded,
         MarkViolations, StartViolations, Tracking;
    NextStart(v, s, tag, attrs);
    StartOpensExactly(v, s, tag, attrs);
    var copied := OpenIsMarked(v, s, tag, attrs);
    MarkViolates(v, copied, s, tag, attrs, Hides(v, tag, attrs));
    if tag == "pre" {
      PreIsNoContainer(v, s, attrs);
    }
    StartViolationsAre(v, s, tag, attrs);
  }

  lemma StartViolationsAre(v: Verdicts, s: Audit, tag: string, attrs: Attrs)
    ensures StartViolations(v, s, tag, attrs) ==
            Duplicates(attrs)
            + (if Occurs(attrs, "data-copy-block") && FirstText(attrs, "data-release") == "" then [CopyWithoutRelease] else [])
            + MarkViolations(v, s, tag, attrs)
            + (if tag == "pre" && !(s.stacks.auditDepth > 0 || IsExcluded(tag)) && s.release.active == "" then [UntrackedPre] else [])
  {
    hide Values, Hides, FirstText, Occurs, IsContainer, Inside, Duplicates, Repetitions, IsVoid;
    RepetitionsAreViolations(attrs);
    InsideExactly(tag, attrs);
  }

  lemma PreIsNoContainer(v: Verdicts, s: Audit, attrs: Attrs)
    ensures !IsContainer(v, s.stacks.elements, "pre", attrs)
  {
  }

  /** An end tag is a violation if and only if it is not void and does not name the innermost open element, a self-closing tag
      if it is not void, and the end of the page if an element is open; a text never is. */
  lemma OthersViolate(v: Verdicts, s: Audit, tag: string, attrs: Attrs, text: string)
    requires Ready(s)
    ensures var void := tag in {"area", "base", "br", "col", "embed", "hr", "img", "input", "link", "meta", "param", "source", "track", "wbr"};
            var n := |s.stacks.elements|;
            && Next(v, s, End(tag)).violations
               == s.violations + (if !void && (n == 0 || s.stacks.elements[n - 1].0 != tag) then [Mismatch] else [])
            && Next(v, s, StartEnd(tag, attrs)).violations
               == s.violations + StartViolations(v, s, tag, attrs) + (if !void then [SelfClosing] else [])
            && Next(v, s, Data(text)).violations == s.violations
            && Finished(s).violations == s.violations + (if n > 0 then [Unclosed] else [])
  {
    hide Next, Open, Close, StartViolations, IsVoid, Tracking;
    StartViolates(v, s, tag, attrs);
    NextStart(v, s, tag, attrs);
    NextEnd(v, s, tag);
    CloseViolates(s, tag);
    SelfClosedViolates(v, s, tag, attrs);
    DataViolatesNothing(v, s, text);
    VoidExactly(tag);
  }

  lemma VoidExactly(tag: string)
    ensures IsVoid(tag) <==>
              tag in {"area", "base", "br", "col", "embed", "hr", "img", "input", "link", "meta", "param", "source", "track", "wbr"}
  {
  }

  lemma CloseViolates(s: Audit, tag: string)
    requires Ready(s)
    ensures var n := |s.stacks.elements|;
            Close(s, tag).violations == s.violations + if !IsVoid(tag) && (n == 0 || s.stacks.elements[n - 1].0 != tag) then [Mismatch] else []
  {
    hide Closed, IsVoid, Tracking;
    if s.stacks.elements != [] {
      ClosedViolations(s, tag);
    }
  }

  lemma SelfClosedViolates(v: Verdicts, s: Audit, tag: string, attrs: Attrs)
    requires Ready(s)
    ensures Next(v, s, StartEnd(tag, attrs)).violations == Open(v, s, tag, attrs).violations + if !IsVoid(tag) then [SelfClosing] else []
  {
    hide Open, IsVoid, Tracking;
  }

  lemma DataViolatesNothing(v: Verdicts, s: Audit, text: string)
    requires Ready(s)
    ensures Next(v, s, Data(text)).violations == s.violations
  {
    hide Track;
  }

  lemma ClosedViolations(s: Audit, tag: string)
    requires Ready(s) && s.stacks.elements != []
    ensures Closed(s, tag).violations == s.violations
  {
    hide BreaksText, Pop, Leave, Track;
  }
}
