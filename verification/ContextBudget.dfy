/** Assembling a memory context within a token budget. */
module ContextBudget {
  import opened Wrappers
  import opened PyText

  function Estimate(text: string): nat {
    var quarter := (|text| + 3) / 4;
    if quarter < 1 then 1 else quarter
  }

  /** A document that may become a section: whether every filter before the budget lets it pass, the text it
      would be rendered to, and whether the secret scan objects to that text. */
  datatype Candidate = Candidate(id: string, wanted: bool, section: string, flagged: bool)

  datatype Item = Item(id: string, tokens: nat)

  datatype Context = Context(remaining: int, baseline: int, sections: seq<string>, items: seq<Item>, selected: set<string>)

  predicate Fits(c: Candidate, remaining: int) {
    Estimate(c.section) <= remaining
  }

  // ---------------------------------------------------------------------------------------------
  // Steps
  // ---------------------------------------------------------------------------------------------

  function AfterWorking(x: Context, working: string, flagged: bool): Context {
    if working != "" && !flagged && Estimate(working) <= x.remaining
    then x.(sections := x.sections + [working], remaining := x.remaining - Estimate(working))
    else x
  }

  function AfterDurable(x: Context, c: Candidate): Context {
    var tokens := Estimate(c.section);
    if c.wanted && tokens <= x.remaining && tokens <= x.baseline && !c.flagged
    then Context(x.remaining - tokens, x.baseline - tokens, x.sections + [c.section], x.items + [Item(c.id, tokens)], x.selected + {c.id})
    else x
  }

  function AfterResult(x: Context, c: Candidate): Context {
    var tokens := Estimate(c.section);
    if c.id !in x.selected && c.wanted && tokens <= x.remaining && !c.flagged
    then x.(remaining := x.remaining - tokens, sections := x.sections + [c.section], items := x.items + [Item(c.id, tokens)])
    else x
  }

  function Durables(x: Context, cs: seq<Candidate>): Context {
    if cs == [] then x else AfterDurable(Durables(x, cs[..|cs| - 1]), cs[|cs| - 1])
  }

  function Results(x: Context, cs: seq<Candidate>): Context {
    if cs == [] then x else AfterResult(Results(x, cs[..|cs| - 1]), cs[|cs| - 1])
  }

  /** The baseline share is limited by what the working memory left. */
  function WithBaseline(x: Context, baseline: nat): Context {
    x.(baseline := if x.remaining < baseline then x.remaining else baseline)
  }

  function Assembled(budget: nat, baseline: nat, working: string, workingFlagged: bool,
                     durable: seq<Candidate>, results: seq<Candidate>): Context {
    var start := AfterWorking(Context(budget, 0, [], [], {}), working, workingFlagged);
    Results(Durables(WithBaseline(start, baseline), durable), results)
  }

  /** `"\n\n".join(sections)` */
  function JoinSections(sections: seq<string>): string {
    if sections == [] then ""
    else if |sections| == 1 then sections[0]
    else JoinSections(sections[..|sections| - 1]) + "\n\n" + sections[|sections| - 1]
  }

  const HEADING := "# Memory Context\n\n"
  const NOTHING := "# Memory Context\n\n_No matching memory context._\n"

  function TextOf(sections: seq<string>): string {
    if sections == [] then NOTHING else HEADING + JoinSections(sections)
  }

  const MIN_BUDGET := 200

  /** What is returned: the text and its estimate, the remainder and the items. */
  datatype Assembly = Assembly(text: string, estimate: nat, remaining: nat, items: seq<Item>)

  /** The three passes over the candidates, unless a budget is refused. */
  method AssembleContext(budget: int, baseline: int, working: string, workingFlagged: bool,
                         durable: seq<Candidate>, results: seq<Candidate>)
    returns (r: Option<Assembly>)
    ensures r.Some? <==> budget >= 200 && baseline >= 0
    ensures r.Some? ==>
              var x := Assembled(budget, baseline, working, workingFlagged, durable, results);
              x.remaining >= 0 && r.value == Assembly(TextOf(x.sections), Estimate(TextOf(x.sections)), x.remaining, x.items)
  {
    if budget < MIN_BUDGET || baseline < 0 {
      return None;
    }
    var remaining: nat, items: seq<Item>, sections: seq<string> := budget, [], [];
    var selectedIds: set<string> := {};
    ghost var x := Context(budget, 0, [], [], {});
    if working != "" && !workingFlagged {
      var tokens := Estimate(working);
      if tokens <= remaining {
        sections := sections + [working];
        remaining := remaining - tokens;
      }
    }
    x := AfterWorking(x, working, workingFlagged);
    var baselineRemaining := if remaining < baseline then remaining else baseline;
    x := WithBaseline(x, baseline);
    assert x == Context(remaining, baselineRemaining, sections, items, selectedIds);
    for k := 0 to |durable|
      invariant baselineRemaining >= 0
      invariant Durables(x, durable[..k]) == Context(remaining, baselineRemaining, sections, items, selectedIds)
    {
      assert durable[..k + 1][..k] == durable[..k];
      var c := durable[k];
      if !c.wanted {
        continue;
      }
      var tokens := Estimate(c.section);
      if tokens > remaining || tokens > baselineRemaining {
        continue;
      }
      if c.flagged {
        continue;
      }
      sections := sections + [c.section];
      remaining := remaining - tokens;
      baselineRemaining := baselineRemaining - tokens;
      selectedIds := selectedIds + {c.id};
      items := items + [Item(c.id, tokens)];
    }
    assert durable[..|durable|] == durable;
    x := Durables(x, durable);
    for k := 0 to |results|
      invariant Results(x, results[..k]) == Context(remaining, baselineRemaining, sections, items, selectedIds)
    {
      assert results[..k + 1][..k] == results[..k];
      var c := results[k];
      if c.id in selectedIds || !c.wanted {
        continue;
      }
      var tokens := Estimate(c.section);
      if tokens > remaining || c.flagged {
        continue;
      }
      sections := sections + [c.section];
      remaining := remaining - tokens;
      items := items + [Item(c.id, tokens)];
    }
    assert results[..|results|] == results;
    var text := TextOf(sections);
    r := Some(Assembly(text, Estimate(text), remaining, items));
  }

  // ---------------------------------------------------------------------------------------------
  // The budget
  // ---------------------------------------------------------------------------------------------

  function Total(sections: seq<string>): nat {
    if sections == [] then 0 else Total(sections[..|sections| - 1]) + Estimate(sections[|sections| - 1])
  }

  function ItemTotal(items: seq<Item>): nat {
    if items == [] then 0 else ItemTotal(items[..|items| - 1]) + items[|items| - 1].tokens
  }

  lemma TotalMore(sections: seq<string>, section: string)
    ensures Total(sections + [section]) == Total(sections) + Estimate(section)
  {
    assert (sections + [section])[..|sections|] == sections;
  }

  lemma ItemTotalMore(items: seq<Item>, item: Item)
    ensures ItemTotal(items + [item]) == ItemTotal(items) + item.tokens
  {
    assert (items + [item])[..|items|] == items;
  }

  /** From `x` to `y` sections were only added, and paid for out of the remainder. */
  ghost predicate Spent(x: Context, y: Context) {
    && 0 <= y.remaining <= x.remaining
    && Total(y.sections) - Total(x.sections) == x.remaining - y.remaining
    && x.sections <= y.sections && x.selected <= y.selected
  }

  lemma WorkingSpends(x: Context, working: string, flagged: bool)
    requires x.remaining >= 0
    ensures Spent(x, AfterWorking(x, working, flagged))
  {
    TotalMore(x.sections, working);
  }

  /** The durable pass also pays out of the baseline share, with the items it selects. */
  lemma {:induction false} DurablesSpend(x: Context, cs: seq<Candidate>)
    requires x.remaining >= 0 && x.baseline >= 0
    ensures var y := Durables(x, cs);
            Spent(x, y) && 0 <= y.baseline && ItemTotal(y.items) - ItemTotal(x.items) == x.baseline - y.baseline && x.items <= y.items
    decreases |cs|
  {
    hide Estimate;
    if cs != [] {
      var n := |cs| - 1;
      DurablesSpend(x, cs[..n]);
      var y := Durables(x, cs[..n]);
      TotalMore(y.sections, cs[n].section);
      ItemTotalMore(y.items, Item(cs[n].id, Estimate(cs[n].section)));
    }
  }

  lemma {:induction false} ResultsSpend(x: Context, cs: seq<Candidate>)
    requires x.remaining >= 0
    ensures Spent(x, Results(x, cs)) && Results(x, cs).selected == x.selected
    decreases |cs|
  {
    hide Estimate;
    if cs != [] {
      var n := |cs| - 1;
      ResultsSpend(x, cs[..n]);
      TotalMore(Results(x, cs[..n]).sections, cs[n].section);
    }
  }

  /** What is used is exactly what the sections cost, the remainder is never negative, and the baseline pass
      spends at most its share. */
  lemma BudgetIsKept(budget: nat, baseline: nat, working: string, flagged: bool, durable: seq<Candidate>, results: seq<Candidate>)
    ensures var start := WithBaseline(AfterWorking(Context(budget, 0, [], [], {}), working, flagged), baseline);
            var middle := Durables(start, durable);
            var x := Assembled(budget, baseline, working, flagged, durable, results);
            && x.remaining >= 0 && Total(x.sections) == budget - x.remaining
            && ItemTotal(middle.items) <= baseline
            && middle.sections <= x.sections
  {
    hide Estimate, AfterWorking, Durables, Results;
    var first := Context(budget, 0, [], [], {});
    WorkingSpends(first, working, flagged);
    var start := WithBaseline(AfterWorking(first, working, flagged), baseline);
    NoItemsYet(first, working, flagged);
    DurablesSpend(start, durable);
    ResultsSpend(Durables(start, durable), results);
  }

  lemma NoItemsYet(x: Context, working: string, flagged: bool)
    ensures AfterWorking(x, working, flagged).items == x.items
  {
  }

  lemma {:induction false} ResultsLeaveNothing(x: Context, cs: seq<Candidate>)
    requires x.remaining >= 0
    ensures forall c | c in cs && c.wanted && !c.flagged && c.id !in x.selected ::
              c.section in Results(x, cs).sections || !Fits(c, Results(x, cs).remaining)
    decreases |cs|
  {
    hide Estimate;
    if cs != [] {
      var n := |cs| - 1;
      ResultsLeaveNothing(x, cs[..n]);
      ResultsSpend(x, cs[..n]);
      ResultsSpend(x, cs);
      assert forall c :: c in cs <==> c in cs[..n] || c == cs[n];
      var y, z := Results(x, cs[..n]), Results(x, cs);
      assert forall s | s in y.sections :: s in z.sections;
      assert z.remaining <= y.remaining;
      assert cs[n].wanted && !cs[n].flagged && cs[n].id !in y.selected && Fits(cs[n], y.remaining) ==> z.sections[|z.sections| - 1] == cs[n].section;
    }
  }

  lemma {:induction false} DurablesLeaveNothing(x: Context, cs: seq<Candidate>)
    requires x.remaining >= 0 && x.baseline >= 0
    ensures forall c | c in cs && c.wanted && !c.flagged ::
              c.section in Durables(x, cs).sections || !Fits(c, Durables(x, cs).remaining) || !Fits(c, Durables(x, cs).baseline)
    decreases |cs|
  {
    hide Estimate;
    if cs != [] {
      var n := |cs| - 1;
      DurablesLeaveNothing(x, cs[..n]);
      DurablesSpend(x, cs[..n]);
      DurablesSpend(x, cs);
      assert forall c :: c in cs <==> c in cs[..n] || c == cs[n];
      var y, z := Durables(x, cs[..n]), Durables(x, cs);
      assert forall s | s in y.sections :: s in z.sections;
      assert z.remaining <= y.remaining && z.baseline <= y.baseline;
      assert cs[n].wanted && !cs[n].flagged && Fits(cs[n], y.remaining) && Fits(cs[n], y.baseline) ==>
               z.sections[|z.sections| - 1] == cs[n].section;
    }
  }

  /** Nothing that was left out for lack of budget would still fit in the end: every result that the filters and
      the scan let pass is a section, or larger than the final remainder; every reviewed durable document is a
      section, or larger than the remainder or the baseline share that its pass left. */
  lemma NothingWouldFit(budget: nat, baseline: nat, working: string, flagged: bool, durable: seq<Candidate>, results: seq<Candidate>)
    ensures var start := WithBaseline(AfterWorking(Context(budget, 0, [], [], {}), working, flagged), baseline);
            var middle := Durables(start, durable);
            var x := Assembled(budget, baseline, working, flagged, durable, results);
            && (forall c | c in results && c.wanted && !c.flagged && c.id !in middle.selected ::
                  c.section in x.sections || !Fits(c, x.remaining))
            && (forall c | c in durable && c.wanted && !c.flagged ::
                  c.section in x.sections || !Fits(c, x.remaining) || !Fits(c, middle.baseline))
            && (working != "" && !flagged ==> working in x.sections || Estimate(working) > x.remaining)
  {
    var first := Context(budget, 0, [], [], {});
    WorkingSpends(first, working, flagged);
    var after := AfterWorking(first, working, flagged);
    assert working != "" && !flagged ==> working in after.sections || Estimate(working) > after.remaining;
    hide Estimate, AfterWorking, Durables, Results;
    var start := WithBaseline(after, baseline);
    DurablesSpend(start, durable);
    DurablesLeaveNothing(start, durable);
    var middle := Durables(start, durable);
    ResultsSpend(middle, results);
    ResultsLeaveNothing(middle, results);
    var x := Results(middle, results);
    assert forall s | s in middle.sections :: s in x.sections;
    assert forall s | s in after.sections :: s in middle.sections;
  }

  // ---------------------------------------------------------------------------------------------
  // The size of the text
  // ---------------------------------------------------------------------------------------------

  lemma {:induction false} JoinedSize(sections: seq<string>)
    requires sections != []
    ensures |JoinSections(sections)| <= 4 * Total(sections) + 2 * (|sections| - 1)
    decreases |sections|
  {
    var n := |sections| - 1;
    if n == 0 {
      assert sections[..0] == [];
      assert Total(sections) == Estimate(sections[0]);
    } else {
      JoinedSize(sections[..n]);
    }
  }

  /** The final text is estimated at no more than its sections cost, plus four for the heading and one for
      every two sections. */
  lemma TextWithinBound(sections: seq<string>)
    requires sections != []
    ensures Estimate(TextOf(sections)) <= Total(sections) + 4 + (|sections| + 1) / 2
  {
    JoinedSize(sections);
    assert |HEADING| == 18;
  }

  function Lengths(sections: seq<string>): nat {
    if sections == [] then 0 else Lengths(sections[..|sections| - 1]) + |sections[|sections| - 1]|
  }

  lemma {:induction false} JoinedLength(sections: seq<string>)
    requires sections != []
    ensures |JoinSections(sections)| == Lengths(sections) + 2 * (|sections| - 1)
    decreases |sections|
  {
    var n := |sections| - 1;
    if n == 0 {
      assert sections[..0] == [];
      assert Lengths(sections) == |sections[0]|;
    } else {
      JoinedLength(sections[..n]);
    }
  }

  /** The final text keeps the budget if and only if the heading, the sections and the separators between them have
      at most four characters for every token; with no section at all it always does. */
  lemma BudgetHoldsExactly(budget: nat, baseline: nat, working: string, flagged: bool, durable: seq<Candidate>, results: seq<Candidate>)
    requires budget >= MIN_BUDGET
    ensures var sections := Assembled(budget, baseline, working, flagged, durable, results).sections;
            Estimate(TextOf(sections)) <= budget <==>
              sections == [] || |HEADING| + Lengths(sections) + 2 * (|sections| - 1) <= 4 * budget
  {
    hide Assembled;
    var sections := Assembled(budget, baseline, working, flagged, durable, results).sections;
    if sections == [] {
      assert |NOTHING| == 48;
    } else {
      JoinedLength(sections);
    }
  }

  // ---------------------------------------------------------------------------------------------
  // What can be said before the selection
  // ---------------------------------------------------------------------------------------------

  /** A candidate that only the budget can keep out. */
  predicate Passes(c: Candidate) {
    c.wanted && !c.flagged
  }

  /** All characters of the candidates that pass, with a separator for each, and all their tokens. */
  function Bulk(cs: seq<Candidate>): nat {
    if cs == [] then 0
    else Bulk(cs[..|cs| - 1]) + if Passes(cs[|cs| - 1]) then |cs[|cs| - 1].section| + 2 else 0
  }

  function Cost(cs: seq<Candidate>): nat {
    if cs == [] then 0
    else Cost(cs[..|cs| - 1]) + if Passes(cs[|cs| - 1]) then Estimate(cs[|cs| - 1].section) else 0
  }

  function WorkingBulk(working: string, flagged: bool): nat {
    if working != "" && !flagged then |working| + 2 else 0
  }

  function WorkingCost(working: string, flagged: bool): nat {
    if working != "" && !flagged then Estimate(working) else 0
  }

  /** The characters of some sections, with a separator for each. */
  function Spread(sections: seq<string>): nat {
    Lengths(sections) + 2 * |sections|
  }

  lemma SpreadMore(sections: seq<string>, section: string)
    ensures Spread(sections + [section]) == Spread(sections) + |section| + 2
  {
    assert (sections + [section])[..|sections|] == sections;
  }

  lemma {:induction false} DurablesSpread(x: Context, cs: seq<Candidate>)
    ensures Spread(Durables(x, cs).sections) <= Spread(x.sections) + Bulk(cs)
    ensures Cost(cs) <= x.remaining && Cost(cs) <= x.baseline ==>
              var y := Durables(x, cs);
              && Spread(y.sections) == Spread(x.sections) + Bulk(cs)
              && y.remaining == x.remaining - Cost(cs) && y.baseline == x.baseline - Cost(cs)
    ensures forall id | id in Durables(x, cs).selected :: id in x.selected || exists k :: 0 <= k < |cs| && cs[k].id == id
    decreases |cs|
  {
    hide Spread, Estimate;
    if cs != [] {
      var n := |cs| - 1;
      DurablesSpread(x, cs[..n]);
      SpreadMore(Durables(x, cs[..n]).sections, cs[n].section);
      assert forall k | 0 <= k < n :: cs[..n][k] == cs[k];
    }
  }

  lemma {:induction false} ResultsSpread(x: Context, cs: seq<Candidate>)
    ensures Spread(Results(x, cs).sections) <= Spread(x.sections) + Bulk(cs)
    ensures Cost(cs) <= x.remaining && (forall c | c in cs :: c.id !in x.selected) ==>
              var y := Results(x, cs);
              && Spread(y.sections) == Spread(x.sections) + Bulk(cs) && y.remaining == x.remaining - Cost(cs)
    ensures Results(x, cs).selected == x.selected
    decreases |cs|
  {
    hide Spread, Estimate;
    if cs != [] {
      var n := |cs| - 1;
      ResultsSpread(x, cs[..n]);
      SpreadMore(Results(x, cs[..n]).sections, cs[n].section);
      assert cs[n] in cs && forall c | c in cs[..n] :: c in cs;
    }
  }

  /** The tokens of all that passes fit: the durable ones into their share, all into the budget, and no result is durable. */
  ghost predicate AllFit(budget: nat, baseline: nat, working: string, flagged: bool, durable: seq<Candidate>, results: seq<Candidate>) {
    && WorkingCost(working, flagged) + Cost(durable) + Cost(results) <= budget && Cost(durable) <= baseline
    && forall c, d | c in results && d in durable :: c.id != d.id
  }

  lemma AssembledSpread(budget: nat, baseline: nat, working: string, flagged: bool, durable: seq<Candidate>, results: seq<Candidate>)
    ensures var sections := Assembled(budget, baseline, working, flagged, durable, results).sections;
            var bulk := WorkingBulk(working, flagged) + Bulk(durable) + Bulk(results);
            && Spread(sections) <= bulk
            && (AllFit(budget, baseline, working, flagged, durable, results) ==> Spread(sections) == bulk)
  {
    hide Estimate, Bulk, Cost;
    var start := AfterWorking(Context(budget, 0, [], [], {}), working, flagged);
    SpreadMore([], working);
    assert Spread([]) == 0 && [] + [working] == [working];
    var x := WithBaseline(start, baseline);
    var y := Durables(x, durable);
    hide Spread;
    DurablesSpread(x, durable);
    ResultsSpread(y, results);
    if AllFit(budget, baseline, working, flagged, durable, results) {
      assert forall k | 0 <= k < |durable| :: durable[k] in durable;
      assert forall c | c in results :: c.id !in y.selected;
    }
  }

  /** Before the selection: if heading, separators and the sections of all candidates that pass have at most four characters
      for every token, the final text keeps the budget whatever is selected. If the tokens of all that passes fit, so that
      all of it is selected, it keeps the budget only then. */
  lemma CandidatesKeepBudget(budget: nat, baseline: nat, working: string, flagged: bool, durable: seq<Candidate>, results: seq<Candidate>)
    requires budget >= MIN_BUDGET
    ensures var text := TextOf(Assembled(budget, baseline, working, flagged, durable, results).sections);
            var bulk := WorkingBulk(working, flagged) + Bulk(durable) + Bulk(results);
            && (|HEADING| + bulk <= 4 * budget + 2 ==> Estimate(text) <= budget)
            && (AllFit(budget, baseline, working, flagged, durable, results) ==>
                  (Estimate(text) <= budget <==> |HEADING| + bulk <= 4 * budget + 2))
  {
    hide Assembled, Bulk, Cost, AllFit, WorkingBulk;
    AssembledSpread(budget, baseline, working, flagged, durable, results);
    BudgetHoldsExactly(budget, baseline, working, flagged, durable, results);
    assert |HEADING| == 18;
  }

  // ---------------------------------------------------------------------------------------------
  // The size of an item
  // ---------------------------------------------------------------------------------------------

  /** The rendering of one memory; `why` are the explaining lines, if they were asked for. */
  function RenderItem(id: string, title: string, path: string, sensitivity: string, score: string, excerpt: string,
                      why: Option<seq<string>>): string {
    var section :=
      "## " + title + "\n\n- id: `" + id + "`\n- path: `" + path + "`\n- sensitivity: `" + sensitivity
      + "`\n- score: `" + score + "`\n\n" + excerpt + "\n";
    match why
    case None => section
    case Some(lines) => Rstrip(section) + "\n" + Join(["", "Why selected:"] + lines) + "\n"
  }

  const MIN_ITEM := 47

  /** No rendered item is shorter than its fixed parts. */
  lemma ItemSize(id: string, title: string, path: string, sensitivity: string, score: string, excerpt: string, why: Option<seq<string>>)
    ensures |RenderItem(id, title, path, sensitivity, score, excerpt, why)| >= MIN_ITEM
  {
    var front := "## " + title + "\n\n- id: `" + id + "`\n- path: `" + path + "`\n- sensitivity: `" + sensitivity
                 + "`\n- score: `" + score;
    var section := front + "`\n\n" + excerpt + "\n";
    assert section == front + ("`\n\n" + excerpt + "\n");
    assert section[|front|] == '`';
    assert |front| >= 45;
    LastIsKept(section, |front|);
  }

  lemma {:induction false} ManySections(sections: seq<string>, k: nat)
    requires k <= |sections| && forall j | k <= j < |sections| :: |sections[j]| >= MIN_ITEM
    ensures (|sections| - k) * 12 <= Total(sections)
    decreases |sections|
  {
    if k < |sections| {
      var n := |sections| - 1;
      ManySections(sections[..n], k);
    }
  }

  /** A candidate as the program renders it. */
  ghost predicate IsRendered(c: Candidate) {
    exists id, title, path, sensitivity, score, excerpt, why ::
      c.section == RenderItem(id, title, path, sensitivity, score, excerpt, why)
  }

  lemma RenderedSize(c: Candidate)
    requires IsRendered(c)
    ensures |c.section| >= MIN_ITEM
  {
    hide RenderItem;
    var id, title, path, sensitivity, score, excerpt, why :|
      c.section == RenderItem(id, title, path, sensitivity, score, excerpt, why);
    ItemSize(id, title, path, sensitivity, score, excerpt, why);
  }

  /** All sections but perhaps the first are as long as an item is at least. */
  ghost predicate Sizable(sections: seq<string>) {
    forall j | 1 <= j < |sections| :: |sections[j]| >= MIN_ITEM
  }

  lemma {:induction false} DurablesSizable(x: Context, cs: seq<Candidate>)
    requires Sizable(x.sections) && forall c | c in cs :: IsRendered(c)
    ensures Sizable(Durables(x, cs).sections)
    decreases |cs|
  {
    hide Estimate, IsRendered;
    if cs != [] {
      DurablesSizable(x, cs[..|cs| - 1]);
      RenderedSize(cs[|cs| - 1]);
    }
  }

  lemma {:induction false} ResultsSizable(x: Context, cs: seq<Candidate>)
    requires Sizable(x.sections) && forall c | c in cs :: IsRendered(c)
    ensures Sizable(Results(x, cs).sections)
    decreases |cs|
  {
    hide Estimate, IsRendered;
    if cs != [] {
      ResultsSizable(x, cs[..|cs| - 1]);
      RenderedSize(cs[|cs| - 1]);
    }
  }

  /** So the overshoot of every assembled context is bounded by its budget: with at most one working-memory section,
      every other section costs at least twelve tokens. */
  lemma OvershootIsBounded(budget: nat, baseline: nat, working: string, flagged: bool, durable: seq<Candidate>, results: seq<Candidate>)
    requires budget >= MIN_BUDGET && (forall c | c in durable :: IsRendered(c)) && forall c | c in results :: IsRendered(c)
    ensures Estimate(TextOf(Assembled(budget, baseline, working, flagged, durable, results).sections)) <= budget + 5 + budget / 24
  {
    hide Durables, Results, TextOf, Total, Estimate, IsRendered;
    var start := WithBaseline(AfterWorking(Context(budget, 0, [], [], {}), working, flagged), baseline);
    assert |start.sections| <= 1;
    DurablesSizable(start, durable);
    ResultsSizable(Durables(start, durable), results);
    BudgetIsKept(budget, baseline, working, flagged, durable, results);
    OvershootOf(Assembled(budget, baseline, working, flagged, durable, results).sections, budget);
  }

  lemma OvershootOf(sections: seq<string>, budget: nat)
    requires budget >= MIN_BUDGET && Total(sections) <= budget && Sizable(sections)
    ensures Estimate(TextOf(sections)) <= budget + 5 + budget / 24
  {
    if sections == [] {
      assert |NOTHING| == 48;
    } else {
      TextWithinBound(sections);
      ManySections(sections, 1);
    }
  }

  const EXCERPT_CHARS := 726

  function Excerpt(n: nat): string {
    seq(n, k => 'x')
  }

  /** A search result, rendered with an excerpt of 726 characters. */
  const FULL_ITEM := RenderItem("m", "t", "p", "internal", "1.0000", Excerpt(EXCERPT_CHARS), None)

  lemma FullItemSize()
    ensures |FULL_ITEM| == 4 * MIN_BUDGET
  {
  }

  /** The budget itself is no bound: a rendered result that just fits the smallest budget makes the text exceed it. */
  lemma TextMayExceedBudget(c: Candidate)
    requires c.wanted && !c.flagged && c.section == FULL_ITEM
    ensures var x := Assembled(MIN_BUDGET, 0, "", false, [], [c]);
            IsRendered(c) && x.sections == [c.section] && x.remaining == 0 && Estimate(TextOf(x.sections)) > MIN_BUDGET
  {
    hide RenderItem;
    FullItemSize();
    assert [c][..0] == [] && [c][0] == c;
    var start := WithBaseline(AfterWorking(Context(MIN_BUDGET, 0, [], [], {}), "", false), 0);
    assert Durables(start, []) == start;
    assert Results(start, [c]) == AfterResult(Results(start, []), c);
    BudgetHoldsExactly(MIN_BUDGET, 0, "", false, [], [c]);
    assert [c.section][..0] == [] && Lengths([c.section]) == |c.section|;
  }
}
