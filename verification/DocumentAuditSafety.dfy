/** Nothing a reader can see escapes the audit, over every sequence of parser events. */
module DocumentAuditSafety {
  import opened Wrappers
  import opened DocumentAudit

  // ---------------------------------------------------------------------------------------------
  // The three stacks and their counters
  // ---------------------------------------------------------------------------------------------

  function Count(flags: seq<bool>): nat {
    if flags == [] then 0 else Count(flags[..|flags| - 1]) + Flag(flags[|flags| - 1])
  }

  function HiddenFlags(elements: seq<(string, bool)>): seq<bool> {
    seq(|elements|, k requires 0 <= k < |elements| => elements[k].1)
  }

  /** The stacks have equal height, every counter is the number of true flags on its stack, the flags are
      those of the element beside them, and what the audit excludes is hidden. */
  ghost predicate Stacked(k: Stacks) {
    && Level(k)
    && k.hiddenDepth == Count(HiddenFlags(k.elements)) && k.auditDepth == Count(k.audits) && k.svgDepth == Count(k.svgs)
    && (forall i | 0 <= i < |k.elements| ::
          && k.audits[i] == IsExcluded(k.elements[i].0) && (k.audits[i] ==> k.elements[i].1)
          && k.svgs[i] == (LocalTag(k.elements[i].0) == "svg"))
  }

  lemma CountMore(flags: seq<bool>, flag: bool)
    ensures Count(flags + [flag]) == Count(flags) + Flag(flag)
  {
    assert (flags + [flag])[..|flags|] == flags;
  }

  lemma HiddenFlagsMore(elements: seq<(string, bool)>, e: (string, bool))
    ensures HiddenFlags(elements + [e]) == HiddenFlags(elements) + [e.1]
  {
  }

  lemma {:induction false} CountPositive(flags: seq<bool>)
    ensures Count(flags) > 0 <==> exists k :: 0 <= k < |flags| && flags[k]
    decreases |flags|
  {
    if flags != [] {
      var n := |flags| - 1;
      CountPositive(flags[..n]);
      if Count(flags[..n]) > 0 {
        var k :| 0 <= k < n && flags[..n][k];
        assert flags[k];
      }
      assert forall k | 0 <= k < n :: flags[..n][k] == flags[k];
    }
  }

  /** Every container the audit skips is one whose text is not rendered. */
  lemma ExcludedIsHidden(v: Verdicts, tag: string, values: map<string, string>)
    ensures IsExcluded(tag) ==> OwnHidden(v, tag, values)
  {
  }

  lemma ExcludedMeansHidden(k: Stacks)
    requires Stacked(k)
    ensures k.auditDepth > 0 ==> k.hiddenDepth > 0
    ensures k.hiddenDepth >= 0 && k.auditDepth >= 0 && k.svgDepth >= 0
    ensures k.hiddenDepth == 0 ==> forall i | 0 <= i < |k.elements| :: !k.elements[i].1
  {
    hide IsExcluded, LocalTag;
    CountPositive(k.audits);
    CountPositive(HiddenFlags(k.elements));
    if k.auditDepth > 0 {
      var i :| 0 <= i < |k.audits| && k.audits[i];
      assert HiddenFlags(k.elements)[i];
    }
    if k.hiddenDepth == 0 {
      forall i | 0 <= i < |k.elements|
        ensures !k.elements[i].1
      {
        assert !HiddenFlags(k.elements)[i];
      }
    }
  }

  lemma PushStacked(k: Stacks, tag: string, own: bool)
    requires Stacked(k) && (IsExcluded(tag) ==> own)
    ensures Stacked(Push(k, tag, own))
  {
    hide IsExcluded, LocalTag;
    HiddenFlagsMore(k.elements, (tag, own));
    CountMore(HiddenFlags(k.elements), own);
    CountMore(k.audits, IsExcluded(tag));
    CountMore(k.svgs, LocalTag(tag) == "svg");
  }

  lemma PopStacked(k: Stacks)
    requires Stacked(k) && k.elements != []
    ensures Stacked(Pop(k))
  {
    hide IsExcluded, LocalTag;
    var n := |k.elements| - 1;
    CountLess(k.audits);
    CountLess(k.svgs);
    CountLess(HiddenFlags(k.elements));
    assert HiddenFlags(k.elements)[..n] == HiddenFlags(k.elements[..n]);
    hide Count;
  }

  lemma CountLess(flags: seq<bool>)
    requires flags != []
    ensures Count(flags) == Count(flags[..|flags| - 1]) + Flag(flags[|flags| - 1])
  {
  }

  lemma NextStacked(v: Verdicts, s: Audit, e: Event)
    requires Ready(s) && Stacked(s.stacks)
    ensures Stacked(Next(v, s, e).stacks)
  {
    hide Open, Close, Emit, Stacked, Push, Pop, OwnHidden, IsExcluded, IsVoid, Values;
    match e
    case Start(tag, attrs) =>
      ExcludedIsHidden(v, tag, Values(attrs));
      PushStacked(s.stacks, tag, OwnHidden(v, tag, Values(attrs)));
    case StartEnd(tag, attrs) =>
      ExcludedIsHidden(v, tag, Values(attrs));
      PushStacked(s.stacks, tag, OwnHidden(v, tag, Values(attrs)));
    case End(tag) =>
      if Matches(s.stacks, tag) {
        PopStacked(s.stacks);
      }
    case Data(text) =>
  }

  // ---------------------------------------------------------------------------------------------
  // The texts
  // ---------------------------------------------------------------------------------------------

  /** What one event adds to the visible and to the audited text. */
  function Said(v: Verdicts, k: Stacks, e: Event): (seq<string>, seq<string>) {
    match e
    case Start(tag, attrs) => SaidAtStart(v, k, tag, attrs)
    case StartEnd(tag, attrs) => SaidAtStart(v, k, tag, attrs)
    case End(tag) =>
      if !IsVoid(tag) && Matches(k, tag) && BreaksText(tag) then (If("\n", k.hiddenDepth == 0), If("\n", k.auditDepth == 0))
      else ([], [])
    case Data(text) => (If(text, k.hiddenDepth == 0), If(text, k.auditDepth == 0))
  }

  function SaidAtStart(v: Verdicts, k: Stacks, tag: string, attrs: Attrs): (seq<string>, seq<string>) {
    if BreaksText(tag) then
      (If("\n", !(k.hiddenDepth > 0 || OwnHidden(v, tag, Values(attrs)))), If("\n", !(k.auditDepth > 0 || IsExcluded(tag))))
    else ([], [])
  }

  function If(text: string, wanted: bool): seq<string> {
    if wanted then [text] else []
  }

  function BlockOf(r: Release, m: string): seq<string> {
    if m in r.blocks then r.blocks[m] else []
  }

  /** The effect of one event on all texts. */
  ghost predicate Adds(s: Audit, t: Audit, said: (seq<string>, seq<string>)) {
    && t.visible == s.visible + said.0 && t.auditable == s.auditable + said.1
    && t.untracked == s.untracked + (if s.release.active == "" then said.1 else [])
    && forall m | m != "" :: BlockOf(t.release, m) == BlockOf(s.release, m) + if s.release.active == m then said.0 else []
  }

  lemma EmitAdds(s: Audit, data: string, seen: bool, audited: bool)
    requires Tracking(s.release)
    ensures Adds(s, Emit(s, data, seen, audited), (If(data, seen), If(data, audited)))
  {
  }

  lemma MarkAdds(v: Verdicts, s: Audit, tag: string, values: map<string, string>, hidden: bool)
    requires Tracking(s.release)
    ensures var t := Mark(v, s, tag, values, hidden);
            && t.visible == s.visible && t.auditable == s.auditable && t.untracked == s.untracked
            && forall m | m != "" :: BlockOf(t.release, m) == BlockOf(s.release, m)
  {
    hide CanonicalContainer, CanonicalAncestors, Inside, IsVoid;
  }

  lemma EnterAdds(s: Audit, tag: string, own: bool)
    requires Tracking(s.release)
    ensures Adds(s, Enter(s, tag, own),
                 if BreaksText(tag)
                 then (If("\n", !(s.stacks.hiddenDepth > 0 || own)), If("\n", !(s.stacks.auditDepth > 0 || IsExcluded(tag))))
                 else ([], []))
    ensures Enter(s, tag, own).release.active == s.release.active && Enter(s, tag, own).release.depth == s.release.depth
  {
    var pushed := if IsVoid(tag) then s else s.(stacks := Push(s.stacks, tag, own));
    EmitAdds(pushed, "\n", !(s.stacks.hiddenDepth > 0 || own), !(s.stacks.auditDepth > 0 || IsExcluded(tag)));
    hide BreaksText, IsExcluded, IsVoid, Push;
  }

  lemma OpenAdds(v: Verdicts, s: Audit, tag: string, attrs: Attrs)
    requires Tracking(s.release)
    ensures Adds(s, Open(v, s, tag, attrs), SaidAtStart(v, s.stacks, tag, attrs))
  {
    hide BreaksText, IsExcluded, IsVoid, Push, OwnHidden, Values, Duplicates, Enter, Mark;
    var values := Values(attrs);
    var own := OwnHidden(v, tag, values);
    EnterAdds(Note(s, Duplicates(attrs)), tag, own);
    var entered := Enter(Note(s, Duplicates(attrs)), tag, own);
    MarkAdds(v, entered, tag, values, s.stacks.hiddenDepth > 0 || own);
    MarkAdds(v, Note(entered, [CopyWithoutRelease]), tag, values, s.stacks.hiddenDepth > 0 || own);
  }

  lemma CloseAdds(v: Verdicts, s: Audit, tag: string)
    requires Ready(s)
    ensures Adds(s, Close(s, tag), Said(v, s.stacks, End(tag)))
  {
    EmitAdds(s, "\n", s.stacks.hiddenDepth == 0, s.stacks.auditDepth == 0);
    hide Pop, Emit, IsVoid, BreaksText;
  }

  lemma NextAdds(v: Verdicts, s: Audit, e: Event)
    requires Ready(s)
    ensures Adds(s, Next(v, s, e), Said(v, s.stacks, e))
  {
    hide Open, Close, Emit, Adds, SaidAtStart, If, IsVoid, BreaksText;
    match e
    case Start(tag, attrs) => OpenAdds(v, s, tag, attrs);
    case StartEnd(tag, attrs) =>
      OpenAdds(v, s, tag, attrs);
      NoteAdds(s, Open(v, s, tag, attrs), [SelfClosing], SaidAtStart(v, s.stacks, tag, attrs));
    case End(tag) => CloseAdds(v, s, tag);
    case Data(text) => EmitAdds(s, text, s.stacks.hiddenDepth == 0, s.stacks.auditDepth == 0);
  }

  lemma NoteAdds(s: Audit, t: Audit, violations: seq<Violation>, said: (seq<string>, seq<string>))
    requires Adds(s, t, said)
    ensures Adds(s, Note(t, violations), said)
  {
  }

  // ---------------------------------------------------------------------------------------------
  // Release blocks
  // ---------------------------------------------------------------------------------------------

  /** An open release block belongs to one element on the stack, its container: a visible `div` below
      nothing but visible plain containers; the depth says how far up it stands. */
  ghost predicate Anchored(k: Stacks, r: Release) {
    if r.active == "" then r.depth == 0
    else
      && 1 <= r.depth <= |k.elements|
      && k.elements[|k.elements| - r.depth] == ("div", false)
      && forall j | 0 <= j < |k.elements| - r.depth :: k.elements[j].0 in ANCESTOR_TAGS && !k.elements[j].1
  }

  /** Where the container of the open block stands. */
  function Base(s: Audit): int {
    |s.stacks.elements| - s.release.depth
  }

  /** A block is either already open and counts one more element, or opens with a visible canonical container. */
  lemma OpenRelease(v: Verdicts, s: Audit, tag: string, attrs: Attrs)
    requires Ready(s)
    ensures var r, t := s.release, Open(v, s, tag, attrs);
            if r.active != "" then t.release.active == r.active && t.release.depth == r.depth + Flag(!IsVoid(tag))
            else if t.release.active == "" then t.release.depth == r.depth
            else t.release.depth == 1 && !IsVoid(tag) && tag == "div" && !OwnHidden(v, tag, Values(attrs))
                 && s.stacks.hiddenDepth <= 0 && CanonicalAncestors(t.stacks.elements)
                 && t.release.active == Get(Values(attrs), "data-release")
  {
    hide BreaksText, IsExcluded, IsVoid, Push, OwnHidden, Values, Duplicates, Enter, CanonicalAncestors, Inside;
    EnterAdds(Note(s, Duplicates(attrs)), tag, OwnHidden(v, tag, Values(attrs)));
  }

  lemma KeepsAnchor(k: Stacks, r: Release, after: Stacks, t: Release)
    requires Anchored(k, r) && r.active != "" && t.active == r.active
    requires k.elements <= after.elements && |after.elements| - |k.elements| == t.depth - r.depth
    ensures Anchored(after, t) && |after.elements| - t.depth == |k.elements| - r.depth
  {
    assert forall j | 0 <= j < |k.elements| :: after.elements[j] == k.elements[j];
  }

  lemma DropsAnchor(k: Stacks, after: Stacks, t: Release)
    requires after.elements == k.elements + [("div", false)] && t.active != "" && t.depth == 1
    requires CanonicalAncestors(after.elements) && forall i | 0 <= i < |k.elements| :: !k.elements[i].1
    ensures Anchored(after, t)
  {
    assert forall j | 0 <= j < |k.elements| :: after.elements[j] == k.elements[j];
  }

  lemma OpenAnchored(v: Verdicts, s: Audit, tag: string, attrs: Attrs)
    requires Ready(s) && Stacked(s.stacks) && Anchored(s.stacks, s.release)
    ensures var t := Open(v, s, tag, attrs);
            && Anchored(t.stacks, t.release)
            && (s.release.active != "" ==> t.release.active == s.release.active && Base(t) == Base(s)
                                           && s.stacks.elements <= t.stacks.elements)
            && (s.release.active == "" && t.release.active != "" ==> Base(t) == |s.stacks.elements|)
  {
    ExcludedMeansHidden(s.stacks);
    OpenRelease(v, s, tag, attrs);
    var own := OwnHidden(v, tag, Values(attrs));
    assert Push(s.stacks, tag, own).elements == s.stacks.elements + [(tag, own)];
    hide Open, OwnHidden, IsVoid, Values, IsExcluded, LocalTag, Stacked, Push, CanonicalAncestors, Ready;
    var t := Open(v, s, tag, attrs);
    if s.release.active != "" {
      KeepsAnchor(s.stacks, s.release, t.stacks, t.release);
    } else if t.release.active != "" {
      DropsAnchor(s.stacks, t.stacks, t.release);
    }
  }

  lemma CloseAnchored(s: Audit, tag: string)
    requires Ready(s) && Anchored(s.stacks, s.release)
    ensures var t := Close(s, tag);
            && Anchored(t.stacks, t.release)
            && (s.release.active == "" ==> t.release.active == "")
            && (s.release.active != "" && |t.stacks.elements| > Base(s) ==>
                  t.release.active == s.release.active && Base(t) == Base(s) && t.stacks.elements[..Base(s) + 1] == s.stacks.elements[..Base(s) + 1])
            && (s.release.active != "" && |t.stacks.elements| <= Base(s) ==> t.release.active == "" && |t.stacks.elements| == Base(s))
  {
    hide BreaksText, IsVoid;
  }

  /** While a block is open its container keeps its place, and the block closes in exactly the event that takes
      its own container off the stack; a block opens only around a newly pushed, visible container. */
  lemma ClosesWithItsContainer(v: Verdicts, s: Audit, e: Event)
    requires Ready(s) && Stacked(s.stacks) && Anchored(s.stacks, s.release)
    ensures var t := Next(v, s, e);
            && Anchored(t.stacks, t.release)
            && (s.release.active != "" ==>
                  && (t.release.active == "" <==> |t.stacks.elements| == Base(s))
                  && (t.release.active != "" ==>
                        t.release.active == s.release.active && Base(t) == Base(s)
                        && t.stacks.elements[..Base(s) + 1] == s.stacks.elements[..Base(s) + 1]))
            && (s.release.active == "" && t.release.active != "" ==> Base(t) == |s.stacks.elements|)
  {
    hide Open, Close, Emit, Stacked;
    match e
    case Start(tag, attrs) =>
      OpenAnchored(v, s, tag, attrs);
      if s.release.active != "" {
        SamePrefix(v, s, tag, attrs);
      }
    case StartEnd(tag, attrs) =>
      OpenAnchored(v, s, tag, attrs);
      if s.release.active != "" {
        SamePrefix(v, s, tag, attrs);
      }
    case End(tag) => CloseAnchored(s, tag);
    case Data(text) => EmitAnchored(s, text);
  }

  lemma SamePrefix(v: Verdicts, s: Audit, tag: string, attrs: Attrs)
    requires Ready(s) && Stacked(s.stacks) && Anchored(s.stacks, s.release) && s.release.active != ""
    ensures var t := Open(v, s, tag, attrs);
            Base(s) < |s.stacks.elements| <= |t.stacks.elements| && t.stacks.elements[..Base(s) + 1] == s.stacks.elements[..Base(s) + 1]
  {
    OpenAnchored(v, s, tag, attrs);
    hide Open, Stacked;
  }

  lemma EmitAnchored(s: Audit, text: string)
    requires Ready(s) && Anchored(s.stacks, s.release)
    ensures var t := Emit(s, text, s.stacks.hiddenDepth == 0, s.stacks.auditDepth == 0);
            t.release.active == s.release.active && t.release.depth == s.release.depth
  {
  }

  function Flatten(texts: seq<seq<string>>): seq<string> {
    if texts == [] then [] else Flatten(texts[..|texts| - 1]) + texts[|texts| - 1]
  }

  /** The text of a release is the text of all its blocks, one after the other. */
  ghost predicate Filed(r: Release) {
    r.blocks.Keys == r.texts.Keys && forall m | m in r.blocks :: r.blocks[m] == Flatten(r.texts[m])
  }

  lemma TrackFiled(r: Release, data: string)
    requires Tracking(r) && Filed(r)
    ensures Filed(Track(r, data))
  {
    if r.active != "" {
      var texts := r.texts[r.active];
      var n := |texts| - 1;
      assert AppendLast(texts, data)[..n] == texts[..n];
      assert Flatten(texts) + [data] == Flatten(texts[..n]) + (texts[n] + [data]);
    }
  }

  lemma OpenBlockFiled(r: Release, marker: string)
    requires Filed(r)
    ensures Filed(OpenBlock(r, marker))
  {
    var texts := if marker in r.texts then r.texts[marker] else [];
    assert (texts + [[]])[..|texts|] == texts;
    assert Flatten(texts + [[]]) == Flatten(texts);
  }

  lemma EnterFiled(s: Audit, tag: string, own: bool)
    requires Tracking(s.release) && Filed(s.release)
    ensures Filed(Enter(s, tag, own).release)
  {
    TrackFiled(s.release, "\n");
    hide BreaksText, IsExcluded, IsVoid, Push, Track, Filed;
  }

  lemma MarkFiled(v: Verdicts, s: Audit, tag: string, values: map<string, string>, hidden: bool)
    requires Tracking(s.release) && Filed(s.release)
    ensures Filed(Mark(v, s, tag, values, hidden).release)
  {
    OpenBlockFiled(s.release, Get(values, "data-release"));
    hide IsVoid, CanonicalAncestors, CanonicalContainer, Inside, OpenBlock;
  }

  lemma OpenFiled(v: Verdicts, s: Audit, tag: string, attrs: Attrs)
    requires Tracking(s.release) && Filed(s.release)
    ensures Filed(Open(v, s, tag, attrs).release)
  {
    hide IsExcluded, IsVoid, OwnHidden, Values, Duplicates, Enter, Mark, Filed;
    var values := Values(attrs);
    var own := OwnHidden(v, tag, values);
    EnterFiled(Note(s, Duplicates(attrs)), tag, own);
    var entered := Enter(Note(s, Duplicates(attrs)), tag, own);
    MarkFiled(v, entered, tag, values, s.stacks.hiddenDepth > 0 || own);
    MarkFiled(v, Note(entered, [CopyWithoutRelease]), tag, values, s.stacks.hiddenDepth > 0 || own);
  }

  lemma CloseFiled(s: Audit, tag: string)
    requires Ready(s) && Filed(s.release)
    ensures Filed(Close(s, tag).release)
  {
    TrackFiled(s.release, "\n");
    hide Track, Pop, IsVoid, BreaksText;
  }

  lemma NextFiled(v: Verdicts, s: Audit, e: Event)
    requires Ready(s) && Filed(s.release)
    ensures Filed(Next(v, s, e).release)
  {
    hide Open, Close, Filed;
    match e
    case Start(tag, attrs) => OpenFiled(v, s, tag, attrs);
    case StartEnd(tag, attrs) => OpenFiled(v, s, tag, attrs);
    case End(tag) => CloseFiled(s, tag);
    case Data(text) => TrackFiled(s.release, text);
  }

  // ---------------------------------------------------------------------------------------------
  // Whole runs
  // ---------------------------------------------------------------------------------------------

  /** All of `a`, in order, among `b`. */
  predicate Subsequence(a: seq<string>, b: seq<string>) {
    a == [] || (b != [] && (Subsequence(a, b[..|b| - 1]) || (a[|a| - 1] == b[|b| - 1] && Subsequence(a[..|a| - 1], b[..|b| - 1]))))
  }

  lemma SubsequenceMore(a: seq<string>, b: seq<string>, text: string, seen: bool, audited: bool)
    requires Subsequence(a, b) && (seen ==> audited)
    ensures Subsequence(a + If(text, seen), b + If(text, audited))
  {
    assert (b + [text])[..|b|] == b && (a + [text])[..|a|] == a;
    assert a + [] == a && b + [] == b;
  }

  /** The visible pieces of text added while the given release was open, or, for an empty name, while none was. */
  function SeenWhile(v: Verdicts, s: Audit, events: seq<Event>, active: string): seq<string>
    requires Ready(s)
  {
    if events == [] then []
    else
      var before := Run(v, s, events[..|events| - 1]);
      SeenWhile(v, s, events[..|events| - 1], active)
      + if before.release.active == active then Said(v, before.stacks, events[|events| - 1]).0 else []
  }

  /** Visible text is audited text. */
  lemma SaidIsAudited(v: Verdicts, k: Stacks, e: Event) returns (text: string, seen: bool, audited: bool)
    requires Stacked(k)
    ensures Said(v, k, e) == (If(text, seen), If(text, audited)) && (seen ==> audited)
  {
    ExcludedMeansHidden(k);
    text, seen, audited := "", false, false;
    match e
    case Start(tag, attrs) =>
      ExcludedIsHidden(v, tag, Values(attrs));
      hide OwnHidden, Values, IsExcluded, BreaksText;
      if BreaksText(tag) {
        text, seen, audited := "\n", !(k.hiddenDepth > 0 || OwnHidden(v, tag, Values(attrs))), !(k.auditDepth > 0 || IsExcluded(tag));
      }
    case StartEnd(tag, attrs) =>
      ExcludedIsHidden(v, tag, Values(attrs));
      hide OwnHidden, Values, IsExcluded, BreaksText;
      if BreaksText(tag) {
        text, seen, audited := "\n", !(k.hiddenDepth > 0 || OwnHidden(v, tag, Values(attrs))), !(k.auditDepth > 0 || IsExcluded(tag));
      }
    case End(tag) =>
      hide BreaksText, IsVoid;
      if !IsVoid(tag) && Matches(k, tag) && BreaksText(tag) {
        text, seen, audited := "\n", k.hiddenDepth == 0, k.auditDepth == 0;
      }
    case Data(data) => text, seen, audited := data, k.hiddenDepth == 0, k.auditDepth == 0;
  }

  /** What holds after every sequence of events, mismatched and self-closing tags included. */
  ghost predicate Audited(v: Verdicts, events: seq<Event>, t: Audit) {
    && Stacked(t.stacks) && Anchored(t.stacks, t.release) && Filed(t.release)
    && Subsequence(t.visible, t.auditable)
    && Subsequence(SeenWhile(v, Blank, events, ""), t.untracked)
    && forall m | m != "" :: BlockOf(t.release, m) == SeenWhile(v, Blank, events, m)
  }

  lemma StepAudited(v: Verdicts, events: seq<Event>)
    requires events != [] && Audited(v, events[..|events| - 1], Run(v, Blank, events[..|events| - 1]))
    ensures var t := Run(v, Blank, events);
            && Subsequence(t.visible, t.auditable)
            && Subsequence(SeenWhile(v, Blank, events, ""), t.untracked)
            && forall m | m != "" :: BlockOf(t.release, m) == SeenWhile(v, Blank, events, m)
  {
    hide Next, Stacked, Anchored, Filed, Said, Subsequence;
    var n := |events| - 1;
    var s, e := Run(v, Blank, events[..n]), events[n];
    NextAdds(v, s, e);
    var text, seen, audited := SaidIsAudited(v, s.stacks, e);
    SubsequenceMore(s.visible, s.auditable, text, seen, audited);
    if s.release.active == "" {
      SubsequenceMore(SeenWhile(v, Blank, events[..n], ""), s.untracked, text, seen, audited);
    } else {
      assert s.untracked + [] == s.untracked;
      assert SeenWhile(v, Blank, events[..n], "") + [] == SeenWhile(v, Blank, events[..n], "");
    }
  }

  lemma BlankAudited(v: Verdicts)
    ensures Audited(v, [], Blank)
  {
    assert Count(HiddenFlags(Blank.stacks.elements)) == 0;
    assert Stacked(Blank.stacks) && Anchored(Blank.stacks, Blank.release) && Filed(Blank.release);
  }

  /** Nothing visible escapes the audit: the stacks and counters agree, visible text is a subsequence of the
      audited text, visible text outside release blocks is a subsequence of the untracked audited text, and
      the text filed under a release is exactly what was visible while one of its blocks was open. */
  lemma {:induction false} NothingEscapes(v: Verdicts, events: seq<Event>)
    ensures Audited(v, events, Run(v, Blank, events))
    decreases |events|
  {
    if events == [] {
      BlankAudited(v);
    } else {
      var n := |events| - 1;
      NothingEscapes(v, events[..n]);
      StepAudited(v, events);
      hide Next, Stacked, Anchored, Filed, Subsequence;
      NextStacked(v, Run(v, Blank, events[..n]), events[n]);
      ClosesWithItsContainer(v, Run(v, Blank, events[..n]), events[n]);
      NextFiled(v, Run(v, Blank, events[..n]), events[n]);
    }
  }
}
