/** The parser against the document tree: what it collects is what inheriting visibility down the tree gives,
    and every page it accepts without a nesting violation is such a tree. */
module DocumentTree {
  import opened Wrappers
  import opened DocumentAudit
  import opened DocumentAuditSafety

  datatype Node = Text(text: string) | Element(tag: string, attrs: Attrs, children: seq<Node>)

  function Serialize(n: Node): seq<Event> {
    match n
    case Text(text) => [Data(text)]
    case Element(tag, attrs, children) =>
      if IsVoid(tag) then [Start(tag, attrs)] else [Start(tag, attrs)] + SerializeAll(children) + [End(tag)]
  }

  function SerializeAll(nodes: seq<Node>): seq<Event> {
    if nodes == [] then [] else SerializeAll(nodes[..|nodes| - 1]) + Serialize(nodes[|nodes| - 1])
  }

  /** The text of a tree that a reader sees: an element hides everything below it. */
  function Visible(v: Verdicts, n: Node, hidden: bool): seq<string> {
    match n
    case Text(text) => If(text, !hidden)
    case Element(tag, attrs, children) =>
      var h := hidden || OwnHidden(v, tag, Values(attrs));
      var around := if BreaksText(tag) then If("\n", !h) else [];
      if IsVoid(tag) then around else around + VisibleAll(v, children, h) + around
  }

  function VisibleAll(v: Verdicts, nodes: seq<Node>, hidden: bool): seq<string> {
    if nodes == [] then [] else VisibleAll(v, nodes[..|nodes| - 1], hidden) + Visible(v, nodes[|nodes| - 1], hidden)
  }

  /** The text of a tree that is audited: only four inert containers are left out. */
  function Auditable(n: Node, excluded: bool): seq<string> {
    match n
    case Text(text) => If(text, !excluded)
    case Element(tag, attrs, children) =>
      var x := excluded || IsExcluded(tag);
      var around := if BreaksText(tag) then If("\n", !x) else [];
      if IsVoid(tag) then around else around + AuditableAll(children, x) + around
  }

  function AuditableAll(nodes: seq<Node>, excluded: bool): seq<string> {
    if nodes == [] then [] else AuditableAll(nodes[..|nodes| - 1], excluded) + Auditable(nodes[|nodes| - 1], excluded)
  }

  lemma {:induction false} RunConcat(v: Verdicts, s: Audit, a: seq<Event>, b: seq<Event>)
    requires Ready(s)
    ensures Run(v, s, a + b) == Run(v, Run(v, s, a), b)
    decreases |b|
  {
    hide Next;
    if b == [] {
      assert a + b == a;
    } else {
      var n := |b| - 1;
      assert (a + b)[..|a + b| - 1] == a + b[..n];
      RunConcat(v, s, a, b[..n]);
    }
  }

  lemma RunOne(v: Verdicts, s: Audit, e: Event)
    requires Ready(s)
    ensures Run(v, s, [e]) == Next(v, s, e)
  {
    hide Next;
    assert [e][..0] == [];
  }

  /** The parser reads the nodes as they are: it adds their visible and audited text and leaves its stacks as they were. */
  ghost predicate Reads(v: Verdicts, s: Audit, t: Audit, visible: seq<string>, auditable: seq<string>)
  {
    t.stacks == s.stacks && t.visible == s.visible + visible && t.auditable == s.auditable + auditable
  }

  lemma ReadsThen(v: Verdicts, s: Audit, m: Audit, t: Audit, a: seq<string>, x: seq<string>, b: seq<string>, y: seq<string>)
    requires Reads(v, s, m, a, x) && Reads(v, m, t, b, y)
    ensures Reads(v, s, t, a + b, x + y)
  {
  }

  function Around(tag: string, shown: bool): seq<string> {
    if BreaksText(tag) then If("\n", shown) else []
  }

  lemma ParsesStart(v: Verdicts, s: Audit, tag: string, attrs: Attrs)
    requires Ready(s)
    ensures var t, own := Open(v, s, tag, attrs), OwnHidden(v, tag, Values(attrs));
            && t.stacks == (if IsVoid(tag) then s.stacks else Push(s.stacks, tag, own))
            && t.visible == s.visible + Around(tag, !(s.stacks.hiddenDepth > 0 || own))
            && t.auditable == s.auditable + Around(tag, !(s.stacks.auditDepth > 0 || IsExcluded(tag)))
  {
    OpenAdds(v, s, tag, attrs);
    hide Open, OwnHidden, Values, IsVoid, BreaksText, IsExcluded, Push;
  }

  /** Popping what was pushed; in between, an element is hidden or excluded by itself or from above. */
  lemma PushThenPop(k: Stacks, tag: string, own: bool)
    requires Stacked(k)
    ensures var p := Push(k, tag, own);
            && Level(p) && p.elements != [] && Pop(p) == k && Matches(p, tag)
            && (p.hiddenDepth > 0 <==> k.hiddenDepth > 0 || own) && p.hiddenDepth >= 0
            && (p.auditDepth > 0 <==> k.auditDepth > 0 || IsExcluded(tag)) && p.auditDepth >= 0
  {
    ExcludedMeansHidden(k);
    hide LocalTag, IsExcluded, Stacked;
    assert Level(k);
  }

  lemma ParsesEnd(v: Verdicts, k: Stacks, s: Audit, tag: string, own: bool)
    requires Ready(s) && Stacked(k) && !IsVoid(tag) && s.stacks == Push(k, tag, own)
    ensures var t := Close(s, tag);
            && t.stacks == k
            && t.visible == s.visible + Around(tag, !(k.hiddenDepth > 0 || own))
            && t.auditable == s.auditable + Around(tag, !(k.auditDepth > 0 || IsExcluded(tag)))
  {
    PushThenPop(k, tag, own);
    CloseAdds(v, s, tag);
    hide Close, Push, Pop, BreaksText, IsExcluded, IsVoid, Stacked;
  }

  lemma RunAround(v: Verdicts, s: Audit, first: Event, inner: seq<Event>, last: Event)
    requires Ready(s)
    ensures Run(v, s, [first] + inner + [last]) == Next(v, Run(v, Next(v, s, first), inner), last)
  {
    hide Next;
    RunConcat(v, s, [first] + inner, [last]);
    RunConcat(v, s, [first], inner);
    RunOne(v, s, first);
    RunOne(v, Run(v, Next(v, s, first), inner), last);
  }

  lemma ParsesElement(v: Verdicts, s: Audit, tag: string, attrs: Attrs, children: seq<Node>)
    requires Ready(s) && Stacked(s.stacks) && !IsVoid(tag)
    ensures var own := OwnHidden(v, tag, Values(attrs));
            var h, x := s.stacks.hiddenDepth > 0 || own, s.stacks.auditDepth > 0 || IsExcluded(tag);
            Reads(v, s, Run(v, s, [Start(tag, attrs)] + SerializeAll(children) + [End(tag)]),
                  Around(tag, !h) + VisibleAll(v, children, h) + Around(tag, !h),
                  Around(tag, !x) + AuditableAll(children, x) + Around(tag, !x))
    decreases children, 3
  {
    hide Open, Close, Run, Next, Push, Pop, OwnHidden, Values, IsVoid, IsExcluded, Stacked, Around, VisibleAll, AuditableAll, SerializeAll;
    var own := OwnHidden(v, tag, Values(attrs));
    var start := Next(v, s, Start(tag, attrs));
    NextStart(v, s, tag, attrs);
    ParsesStart(v, s, tag, attrs);
    NextStacked(v, s, Start(tag, attrs));
    PushThenPop(s.stacks, tag, own);
    ParsesAll(v, start, children);
    var inner := Run(v, start, SerializeAll(children));
    ParsesEnd(v, s.stacks, inner, tag, own);
    NextEnd(v, inner, tag);
    RunAround(v, s, Start(tag, attrs), SerializeAll(children), End(tag));
  }

  lemma NextStart(v: Verdicts, s: Audit, tag: string, attrs: Attrs)
    requires Ready(s)
    ensures Next(v, s, Start(tag, attrs)) == Open(v, s, tag, attrs)
  {
  }

  lemma NextEnd(v: Verdicts, s: Audit, tag: string)
    requires Ready(s)
    ensures Next(v, s, End(tag)) == Close(s, tag)
  {
  }

  lemma {:induction false} ParsesNode(v: Verdicts, s: Audit, n: Node)
    requires Ready(s) && Stacked(s.stacks)
    ensures Reads(v, s, Run(v, s, Serialize(n)), Visible(v, n, s.stacks.hiddenDepth > 0), Auditable(n, s.stacks.auditDepth > 0))
    decreases n, 1
  {
    hide OwnHidden, Values, IsVoid, IsExcluded, BreaksText, Stacked, Open;
    match n
    case Text(text) =>
      ExcludedMeansHidden(s.stacks);
      RunOne(v, s, Data(text));
      NextAdds(v, s, Data(text));
    case Element(tag, attrs, children) =>
      if IsVoid(tag) {
        RunOne(v, s, Start(tag, attrs));
        ParsesStart(v, s, tag, attrs);
      } else {
        ParsesElement(v, s, tag, attrs, children);
      }
  }

  lemma {:induction false} ParsesAll(v: Verdicts, s: Audit, nodes: seq<Node>)
    requires Ready(s) && Stacked(s.stacks)
    ensures Reads(v, s, Run(v, s, SerializeAll(nodes)),
                  VisibleAll(v, nodes, s.stacks.hiddenDepth > 0), AuditableAll(nodes, s.stacks.auditDepth > 0))
    decreases nodes, 2
  {
    hide Next, Stacked, Serialize, Visible, Auditable, Ready;
    if nodes != [] {
      var n := |nodes| - 1;
      ParsesAll(v, s, nodes[..n]);
      var m := Run(v, s, SerializeAll(nodes[..n]));
      ParsesNode(v, m, nodes[n]);
      RunConcat(v, s, SerializeAll(nodes[..n]), Serialize(nodes[n]));
      ReadsThen(v, s, m, Run(v, m, Serialize(nodes[n])), VisibleAll(v, nodes[..n], s.stacks.hiddenDepth > 0),
                AuditableAll(nodes[..n], s.stacks.auditDepth > 0), Visible(v, nodes[n], s.stacks.hiddenDepth > 0),
                Auditable(nodes[n], s.stacks.auditDepth > 0));
    }
  }

  // ---------------------------------------------------------------------------------------------
  // Every page without a nesting violation is a tree
  // ---------------------------------------------------------------------------------------------

  /** The same page without what the parser passes over: end tags of void elements, and the slash in their start tags. */
  function Plain(events: seq<Event>): seq<Event> {
    if events == [] then [] else Plain(events[..|events| - 1]) + PlainOne(events[|events| - 1])
  }

  function PlainOne(e: Event): seq<Event> {
    match e
    case End(tag) => if IsVoid(tag) then [] else [e]
    case StartEnd(tag, attrs) => if IsVoid(tag) then [Start(tag, attrs)] else [e]
    case _ => [e]
  }

  lemma {:induction false} RunPlain(v: Verdicts, s: Audit, events: seq<Event>)
    requires Ready(s)
    ensures Run(v, s, Plain(events)) == Run(v, s, events)
    decreases |events|
  {
    if events != [] {
      var n := |events| - 1;
      RunPlain(v, s, events[..n]);
      RunConcat(v, s, Plain(events[..n]), PlainOne(events[n]));
      RunPlainOne(v, Run(v, s, events[..n]), events[n]);
      hide Next;
    }
  }

  lemma RunPlainOne(v: Verdicts, s: Audit, e: Event)
    requires Ready(s)
    ensures Run(v, s, PlainOne(e)) == Next(v, s, e)
  {
    hide Open, IsVoid;
    if PlainOne(e) != [] {
      RunOne(v, s, PlainOne(e)[0]);
    }
  }

  /** An element still open, with what it already holds. */
  datatype Frame = Frame(tag: string, attrs: Attrs, held: seq<Node>)

  /** The events of a partly read page: what is complete at the top, then every open element with its content. */
  function Partial(top: seq<Node>, frames: seq<Frame>): seq<Event> {
    if frames == [] then SerializeAll(top)
    else
      var f := frames[|frames| - 1];
      Partial(top, frames[..|frames| - 1]) + ([Start(f.tag, f.attrs)] + SerializeAll(f.held))
  }

  lemma SerializeMore(nodes: seq<Node>, n: Node)
    ensures SerializeAll(nodes + [n]) == SerializeAll(nodes) + Serialize(n)
  {
    assert (nodes + [n])[..|nodes|] == nodes;
  }

  /** A complete node belongs to the innermost open element. */
  function HoldTop(top: seq<Node>, frames: seq<Frame>, n: Node): (seq<Node>, seq<Frame>) {
    if frames == [] then (top + [n], frames)
    else
      var f := frames[|frames| - 1];
      (top, frames[|frames| - 1 := f.(held := f.held + [n])])
  }

  lemma HoldPartial(top: seq<Node>, frames: seq<Frame>, n: Node)
    ensures var (t, fs) := HoldTop(top, frames, n);
            && Partial(t, fs) == Partial(top, frames) + Serialize(n) && |fs| == |frames|
            && forall i | 0 <= i < |frames| :: fs[i].tag == frames[i].tag
  {
    hide Serialize;
    if frames == [] {
      SerializeMore(top, n);
    } else {
      var f := frames[|frames| - 1];
      SerializeMore(f.held, n);
      var (t, fs) := HoldTop(top, frames, n);
      assert fs[..|fs| - 1] == frames[..|frames| - 1];
      var front := Partial(top, frames[..|frames| - 1]);
      assert front + ([Start(f.tag, f.attrs)] + (SerializeAll(f.held) + Serialize(n)))
          == (front + ([Start(f.tag, f.attrs)] + SerializeAll(f.held))) + Serialize(n);
    }
  }

  lemma OpenPartial(top: seq<Node>, frames: seq<Frame>, tag: string, attrs: Attrs)
    ensures Partial(top, frames + [Frame(tag, attrs, [])]) == Partial(top, frames) + [Start(tag, attrs)]
  {
    var fs := frames + [Frame(tag, attrs, [])];
    assert fs[..|fs| - 1] == frames;
    assert [Start(tag, attrs)] + SerializeAll([]) == [Start(tag, attrs)];
  }

  lemma ClosePartial(top: seq<Node>, frames: seq<Frame>)
    requires frames != [] && !IsVoid(frames[|frames| - 1].tag)
    ensures var n, f := |frames| - 1, frames[|frames| - 1];
            var (t, fs) := HoldTop(top, frames[..n], Element(f.tag, f.attrs, f.held));
            && Partial(t, fs) == Partial(top, frames) + [End(f.tag)] && |fs| == n
            && forall i | 0 <= i < n :: fs[i].tag == frames[i].tag
  {
    hide IsVoid;
    var n, f := |frames| - 1, frames[|frames| - 1];
    HoldPartial(top, frames[..n], Element(f.tag, f.attrs, f.held));
    var front := Partial(top, frames[..n]);
    assert Serialize(Element(f.tag, f.attrs, f.held)) == [Start(f.tag, f.attrs)] + SerializeAll(f.held) + [End(f.tag)];
    assert front + ([Start(f.tag, f.attrs)] + SerializeAll(f.held) + [End(f.tag)])
        == (front + ([Start(f.tag, f.attrs)] + SerializeAll(f.held))) + [End(f.tag)];
  }

  predicate WellNested(s: Audit) {
    Mismatch !in s.violations && SelfClosing !in s.violations
  }

  lemma OpenViolations(v: Verdicts, s: Audit, tag: string, attrs: Attrs)
    requires Tracking(s.release)
    ensures s.violations <= Open(v, s, tag, attrs).violations
  {
    hide OwnHidden, Values, Duplicates, Inside, IsVoid, BreaksText, IsExcluded, CanonicalAncestors, CanonicalContainer, Push, OpenBlock, Get, Tracking, Track;
  }

  /** Violations are never taken back. */
  lemma ViolationsStay(v: Verdicts, s: Audit, e: Event)
    requires Ready(s)
    ensures s.violations <= Next(v, s, e).violations
    ensures e.End? && !IsVoid(e.tag) && !Matches(s.stacks, e.tag) ==> Mismatch in Next(v, s, e).violations
    ensures e.StartEnd? && !IsVoid(e.tag) ==> SelfClosing in Next(v, s, e).violations
  {
    if e.Start? || e.StartEnd? {
      OpenViolations(v, s, e.tag, e.attrs);
    }
    hide Open, IsVoid, BreaksText, Pop, Tracking, Track;
  }

  ghost predicate Mirrors(frames: seq<Frame>, k: Stacks) {
    |frames| == |k.elements| && forall i | 0 <= i < |frames| :: frames[i].tag == k.elements[i].0 && !IsVoid(frames[i].tag)
  }

  lemma {:induction false} ReadPartly(v: Verdicts, events: seq<Event>) returns (top: seq<Node>, frames: seq<Frame>)
    requires WellNested(Run(v, Blank, events))
    ensures Partial(top, frames) == Plain(events) && Mirrors(frames, Run(v, Blank, events).stacks)
    decreases |events|
  {
    top, frames := [], [];
    if events != [] {
      var n := |events| - 1;
      var s := Run(v, Blank, events[..n]);
      ViolationsStay(v, s, events[n]);
      assert WellNested(s) by { hide Next; }
      top, frames := ReadPartly(v, events[..n]);
      top, frames := ReadOneMore(v, s, events[n], top, frames);
    }
  }

  lemma ReadOneMore(v: Verdicts, s: Audit, e: Event, top: seq<Node>, frames: seq<Frame>) returns (t: seq<Node>, fs: seq<Frame>)
    requires Ready(s) && WellNested(Next(v, s, e)) && Mirrors(frames, s.stacks)
    ensures Partial(t, fs) == Partial(top, frames) + PlainOne(e) && Mirrors(fs, Next(v, s, e).stacks)
  {
    ViolationsStay(v, s, e);
    hide Open, Close, Emit, IsVoid, WellNested, OwnHidden, Values, IsExcluded, LocalTag, Partial;
    t, fs := top, frames;
    match e
    case Start(tag, attrs) => t, fs := ReadStart(v, s, tag, attrs, top, frames);
    case StartEnd(tag, attrs) =>
      NotSelfClosed(v, s, tag, attrs);
      t, fs := ReadStart(v, s, tag, attrs, top, frames);
    case End(tag) =>
      if !IsVoid(tag) {
        NotMismatched(v, s, tag);
        ClosePartial(top, frames);
        var f := frames[|frames| - 1];
        var held := HoldTop(top, frames[..|frames| - 1], Element(f.tag, f.attrs, f.held));
        t, fs := held.0, held.1;
      }
    case Data(text) =>
      HoldPartial(top, frames, Text(text));
      var held := HoldTop(top, frames, Text(text));
      t, fs := held.0, held.1;
  }

  lemma NotSelfClosed(v: Verdicts, s: Audit, tag: string, attrs: Attrs)
    requires Ready(s) && WellNested(Next(v, s, StartEnd(tag, attrs)))
    ensures IsVoid(tag)
  {
    ViolationsStay(v, s, StartEnd(tag, attrs));
  }

  lemma NotMismatched(v: Verdicts, s: Audit, tag: string)
    requires Ready(s) && WellNested(Next(v, s, End(tag))) && !IsVoid(tag)
    ensures Matches(s.stacks, tag)
  {
    ViolationsStay(v, s, End(tag));
  }

  lemma ReadStart(v: Verdicts, s: Audit, tag: string, attrs: Attrs, top: seq<Node>, frames: seq<Frame>)
    returns (t: seq<Node>, fs: seq<Frame>)
    requires Ready(s) && Mirrors(frames, s.stacks)
    ensures Partial(t, fs) == Partial(top, frames) + [Start(tag, attrs)] && Mirrors(fs, Open(v, s, tag, attrs).stacks)
  {
    hide Open, IsVoid, OwnHidden, Values, IsExcluded, LocalTag, Partial;
    if IsVoid(tag) {
      HoldPartial(top, frames, Element(tag, attrs, []));
      var held := HoldTop(top, frames, Element(tag, attrs, []));
      t, fs := held.0, held.1;
    } else {
      OpenPartial(top, frames, tag, attrs);
      t, fs := top, frames + [Frame(tag, attrs, [])];
    }
  }

  /** No violation of the nesting of elements. */
  predicate IsClean(s: Audit) {
    WellNested(s) && Unclosed !in s.violations
  }

  /** A page without a violation of nesting is the serialization of a forest, and what the parser collected from it
      is the visible and the auditable text of that forest. */
  lemma CleanPagesAreTrees(v: Verdicts, events: seq<Event>) returns (forest: seq<Node>)
    requires IsClean(Finished(Run(v, Blank, events)))
    ensures SerializeAll(forest) == Plain(events)
    ensures Run(v, Blank, events).visible == VisibleAll(v, forest, false)
    ensures Run(v, Blank, events).auditable == AuditableAll(forest, false)
  {
    hide Run, Plain, VisibleAll, AuditableAll;
    BlankAudited(v);
    CleanEnds(Run(v, Blank, events));
    hide WellNested;
    var frames;
    forest, frames := ReadPartly(v, events);
    RunPlain(v, Blank, events);
    ParsesAll(v, Blank, forest);
  }

  lemma CleanEnds(s: Audit)
    requires IsClean(Finished(s))
    ensures WellNested(s) && s.stacks.elements == []
  {
    var noted := Note(s, [Unclosed]).violations;
    assert noted[|noted| - 1] == Unclosed;
  }

  /** The texts of a page that is clean are those of a forest with the same plain tags and text. */
  ghost predicate IsTree(v: Verdicts, events: seq<Event>, visible: seq<string>, auditable: seq<string>) {
    exists forest: seq<Node> :: SerializeAll(forest) == Plain(events)
                                && visible == VisibleAll(v, forest, false) && auditable == AuditableAll(forest, false)
  }

  /** A whole page through a new parser: nothing visible escapes the audit, and a page without a violation of nesting
      is read as the forest it serializes. */
  method ParsePage(verdicts: Verdicts, events: seq<Event>) returns (parser: DocumentParser)
    ensures fresh(parser) && parser.verdicts == verdicts && parser.Valid()
    ensures parser.View() == Finished(Run(verdicts, Blank, events))
    ensures Audited(verdicts, events, Run(verdicts, Blank, events))
    ensures Subsequence(parser.visibleTextParts, parser.auditableTextParts)
    ensures IsClean(parser.View()) ==> IsTree(verdicts, events, parser.visibleTextParts, parser.auditableTextParts)
  {
    hide Run, Plain, VisibleAll, AuditableAll, SerializeAll, IsClean, IsTree, Subsequence, Ready;
    parser := new DocumentParser(verdicts);
    parser.Feed(events);
    parser.Finish();
    NothingEscapes(verdicts, events);
    FinishedTexts(Run(verdicts, Blank, events));
    if IsClean(Finished(Run(verdicts, Blank, events))) {
      CleanIsTree(verdicts, events);
    }
  }

  lemma FinishedTexts(s: Audit)
    ensures Finished(s).visible == s.visible && Finished(s).auditable == s.auditable
  {
  }

  lemma CleanIsTree(v: Verdicts, events: seq<Event>)
    requires IsClean(Finished(Run(v, Blank, events)))
    ensures IsTree(v, events, Run(v, Blank, events).visible, Run(v, Blank, events).auditable)
  {
    hide Run, Plain, VisibleAll, AuditableAll, SerializeAll, IsClean;
    var forest := CleanPagesAreTrees(v, events);
  }
}
