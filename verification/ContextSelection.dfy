/** What the context assembler selects, said without its passes. */
module ContextSelection {
  import opened Wrappers
  import opened PyText
  import opened ContextBudget

  /** A token for every four characters or part of them, and one at least. */
  function Size(text: string): nat {
    if |text| <= 4 then 1 else |text| / 4 + if |text| % 4 == 0 then 0 else 1
  }

  lemma EstimateIsSize(text: string)
    ensures Estimate(text) == Size(text)
  {
  }

  /** The candidates that are taken, in their order. */
  function Taken(cs: seq<Candidate>, chosen: seq<bool>): seq<Candidate>
    requires |cs| == |chosen|
  {
    if cs == [] then []
    else
      var n := |cs| - 1;
      Taken(cs[..n], chosen[..n]) + if chosen[n] then [cs[n]] else []
  }

  function Price(cs: seq<Candidate>): nat {
    if cs == [] then 0 else Price(cs[..|cs| - 1]) + Size(cs[|cs| - 1].section)
  }

  function SectionsOf(cs: seq<Candidate>): seq<string> {
    seq(|cs|, k requires 0 <= k < |cs| => cs[k].section)
  }

  /** Every item names its memory, and what its section costs. */
  function ItemsFor(cs: seq<Candidate>): seq<Item> {
    seq(|cs|, k requires 0 <= k < |cs| => Item(cs[k].id, Size(cs[k].section)))
  }

  /** No secret was found in it, every filter lets it pass, and there is room for it. */
  predicate Admitted(c: Candidate, room: int) {
    c.wanted && !c.flagged && Size(c.section) <= room
  }

  lemma TakenMore(cs: seq<Candidate>, chosen: seq<bool>, c: Candidate, b: bool)
    requires |cs| == |chosen|
    ensures Taken(cs + [c], chosen + [b]) == Taken(cs, chosen) + if b then [c] else []
  {
    assert (cs + [c])[..|cs|] == cs && (chosen + [b])[..|chosen|] == chosen;
  }

  lemma PriceMore(cs: seq<Candidate>, c: Candidate)
    ensures Price(cs + [c]) == Price(cs) + Size(c.section)
  {
    assert (cs + [c])[..|cs|] == cs;
  }

  /** What one pass adds: the sections, items and prices of what it takes. */
  ghost predicate Adds(x: Context, y: Context, taken: seq<Candidate>) {
    && y.sections == x.sections + SectionsOf(taken) && y.items == x.items + ItemsFor(taken)
    && y.remaining == x.remaining - Price(taken)
  }

  lemma AddsNothing(x: Context)
    ensures Adds(x, x, Taken([], []))
  {
  }

  lemma AddsOne(x: Context, y: Context, z: Context, taken: seq<Candidate>, c: Candidate, b: bool)
    requires Adds(x, y, taken)
    requires z.sections == y.sections + if b then [c.section] else []
    requires z.items == y.items + if b then [Item(c.id, Estimate(c.section))] else []
    requires z.remaining == y.remaining - if b then Estimate(c.section) else 0
    ensures Adds(x, z, taken + if b then [c] else [])
  {
    hide Estimate, Size, Price;
    EstimateIsSize(c.section);
    PriceMore(taken, c);
    assert SectionsOf(taken + [c]) == SectionsOf(taken) + [c.section];
    assert ItemsFor(taken + [c]) == ItemsFor(taken) + [Item(c.id, Size(c.section))];
    assert taken + [] == taken;
  }

  /** What the candidates taken before this one cost. */
  function Spent(cs: seq<Candidate>, chosen: seq<bool>, k: nat): nat
    requires k <= |cs| == |chosen|
  {
    Price(Taken(cs[..k], chosen[..k]))
  }

  lemma SpentBefore(cs: seq<Candidate>, chosen: seq<bool>, c: Candidate, b: bool, k: nat)
    requires k <= |cs| == |chosen|
    ensures Spent(cs + [c], chosen + [b], k) == Spent(cs, chosen, k)
  {
    assert (cs + [c])[..k] == cs[..k] && (chosen + [b])[..k] == chosen[..k];
  }

  lemma SpentAll(cs: seq<Candidate>, chosen: seq<bool>)
    requires |cs| == |chosen|
    ensures Spent(cs, chosen, |cs|) == Price(Taken(cs, chosen))
  {
    assert cs[..|cs|] == cs && chosen[..|cs|] == chosen;
  }

  /** A durable memory is taken if and only if it is admitted to what is left of the budget and of the share. */
  ghost predicate DurablesTaken(cs: seq<Candidate>, chosen: seq<bool>, room: int, share: int)
    requires |cs| == |chosen|
  {
    forall k | 0 <= k < |cs| ::
      chosen[k] <==> Admitted(cs[k], room - Spent(cs, chosen, k)) && Admitted(cs[k], share - Spent(cs, chosen, k))
  }

  /** A result is taken if and only if it is admitted to what is left of the budget, and no durable one that was taken. */
  ghost predicate ResultsTaken(cs: seq<Candidate>, chosen: seq<bool>, room: int, durable: seq<Candidate>)
    requires |cs| == |chosen|
  {
    forall k | 0 <= k < |cs| ::
      chosen[k] <==> Admitted(cs[k], room - Spent(cs, chosen, k)) && forall d | d in durable :: d.id != cs[k].id
  }

  lemma DurablesTakenMore(cs: seq<Candidate>, chosen: seq<bool>, c: Candidate, b: bool, room: int, share: int)
    requires |cs| == |chosen| && DurablesTaken(cs, chosen, room, share)
    requires b <==> Admitted(c, room - Price(Taken(cs, chosen))) && Admitted(c, share - Price(Taken(cs, chosen)))
    ensures DurablesTaken(cs + [c], chosen + [b], room, share)
  {
    hide Admitted, Price, Taken, Spent;
    SpentAll(cs, chosen);
    forall k | 0 <= k <= |cs|
      ensures (chosen + [b])[k] <==>
                && Admitted((cs + [c])[k], room - Spent(cs + [c], chosen + [b], k))
                && Admitted((cs + [c])[k], share - Spent(cs + [c], chosen + [b], k))
    {
      SpentBefore(cs, chosen, c, b, k);
    }
  }

  lemma ResultsTakenMore(cs: seq<Candidate>, chosen: seq<bool>, c: Candidate, b: bool, room: int, durable: seq<Candidate>)
    requires |cs| == |chosen| && ResultsTaken(cs, chosen, room, durable)
    requires b <==> Admitted(c, room - Price(Taken(cs, chosen))) && forall d | d in durable :: d.id != c.id
    ensures ResultsTaken(cs + [c], chosen + [b], room, durable)
  {
    hide Admitted, Price, Taken, Spent;
    SpentAll(cs, chosen);
    forall k | 0 <= k <= |cs|
      ensures (chosen + [b])[k] <==>
                && Admitted((cs + [c])[k], room - Spent(cs + [c], chosen + [b], k))
                && forall d | d in durable :: d.id != (cs + [c])[k].id
    {
      SpentBefore(cs, chosen, c, b, k);
    }
  }

  lemma DurableStep(y: Context, c: Candidate)
    ensures var b, z := Admitted(c, y.remaining) && Admitted(c, y.baseline), AfterDurable(y, c);
            && z.sections == y.sections + (if b then [c.section] else [])
            && z.items == y.items + (if b then [Item(c.id, Estimate(c.section))] else [])
            && z.remaining == y.remaining - (if b then Estimate(c.section) else 0)
            && z.baseline == y.baseline - (if b then Size(c.section) else 0)
            && z.selected == y.selected + if b then {c.id} else {}
  {
    EstimateIsSize(c.section);
    hide Estimate, Size;
  }

  lemma ResultStep(y: Context, c: Candidate)
    ensures var b, z := Admitted(c, y.remaining) && c.id !in y.selected, AfterResult(y, c);
            && z.sections == y.sections + (if b then [c.section] else [])
            && z.items == y.items + (if b then [Item(c.id, Estimate(c.section))] else [])
            && z.remaining == y.remaining - (if b then Estimate(c.section) else 0)
            && z.selected == y.selected
  {
    EstimateIsSize(c.section);
    hide Estimate, Size;
  }

  lemma PassAdds(x: Context, y: Context, taken: seq<Candidate>)
    requires Adds(x, y, taken)
    ensures y.remaining == x.remaining - Price(taken)
  {
  }

  lemma NothingPicked(x: Context)
    ensures Durables(x, []) == x && Results(x, []) == x && Price(Taken([], [])) == 0 && Taken([], []) == []
  {
  }

  lemma {:induction false} DurablesPick(x: Context, cs: seq<Candidate>) returns (chosen: seq<bool>)
    ensures |chosen| == |cs|
    ensures Adds(x, Durables(x, cs), Taken(cs, chosen))
    ensures Durables(x, cs).baseline == x.baseline - Price(Taken(cs, chosen))
    ensures forall id :: id in Durables(x, cs).selected <==> id in x.selected || exists d :: d in Taken(cs, chosen) && d.id == id
    ensures DurablesTaken(cs, chosen, x.remaining, x.baseline)
    decreases |cs|
  {
    hide Adds, Price, Taken, Estimate, Size, AfterDurable, DurablesTaken, Admitted;
    if cs == [] {
      chosen := [];
      AddsNothing(x);
      NothingPicked(x);
      assert DurablesTaken([], [], x.remaining, x.baseline) by {
        NoneTaken(x.remaining, x.baseline, []);
      }
    } else {
      var n := |cs| - 1;
      var c := cs[n];
      var before := DurablesPick(x, cs[..n]);
      var y := Durables(x, cs[..n]);
      var b := Admitted(c, y.remaining) && Admitted(c, y.baseline);
      chosen := before + [b];
      assert cs[..n] + [c] == cs;
      DurableStep(y, c);
      PassAdds(x, y, Taken(cs[..n], before));
      TakenMore(cs[..n], before, c, b);
      AddsOne(x, y, Durables(x, cs), Taken(cs[..n], before), c, b);
      PriceMore(Taken(cs[..n], before), c);
      DurablesTakenMore(cs[..n], before, c, b, x.remaining, x.baseline);
      assert Taken(cs[..n], before) + [] == Taken(cs[..n], before);
    }
  }

  lemma NoneTaken(room: int, share: int, durable: seq<Candidate>)
    ensures DurablesTaken([], [], room, share) && ResultsTaken([], [], room, durable)
  {
  }

  lemma {:induction false} ResultsPick(x: Context, cs: seq<Candidate>, durable: seq<Candidate>) returns (chosen: seq<bool>)
    requires forall id :: id in x.selected <==> exists d :: d in durable && d.id == id
    ensures |chosen| == |cs|
    ensures Adds(x, Results(x, cs), Taken(cs, chosen)) && Results(x, cs).selected == x.selected
    ensures ResultsTaken(cs, chosen, x.remaining, durable)
    decreases |cs|
  {
    hide Adds, Price, Taken, Estimate, Size, AfterResult, ResultsTaken, Admitted;
    if cs == [] {
      chosen := [];
      AddsNothing(x);
      NothingPicked(x);
      NoneTaken(x.remaining, 0, durable);
    } else {
      var n := |cs| - 1;
      var c := cs[n];
      var before := ResultsPick(x, cs[..n], durable);
      var y := Results(x, cs[..n]);
      var b := Admitted(c, y.remaining) && c.id !in y.selected;
      chosen := before + [b];
      assert cs[..n] + [c] == cs;
      ResultStep(y, c);
      PassAdds(x, y, Taken(cs[..n], before));
      TakenMore(cs[..n], before, c, b);
      AddsOne(x, y, Results(x, cs), Taken(cs[..n], before), c, b);
      ResultsTakenMore(cs[..n], before, c, b, x.remaining, durable);
    }
  }

  /** The whole selection. The working memory is taken if it is there, nothing is found in it and it fits the budget. Then, in
      their order, the durable memories that fit what is left of the budget and of the share, which is no more than the
      working memory has left; then the results that fit what is left of the budget, but no memory a second time. The
      sections and items are those of what is taken, in this order. */
  lemma SelectsExactly(budget: nat, baseline: nat, working: string, flagged: bool, durable: seq<Candidate>, results: seq<Candidate>)
    returns (own: bool, d: seq<bool>, r: seq<bool>)
    ensures own <==> working != "" && !flagged && Size(working) <= budget
    ensures |d| == |durable| && |r| == |results|
    ensures var left := if own then budget - Size(working) else budget;
            && DurablesTaken(durable, d, left, if left < baseline then left else baseline)
            && ResultsTaken(results, r, left - Price(Taken(durable, d)), Taken(durable, d))
            && var x := Assembled(budget, baseline, working, flagged, durable, results);
               && x.sections == (if own then [working] else []) + SectionsOf(Taken(durable, d)) + SectionsOf(Taken(results, r))
               && x.items == ItemsFor(Taken(durable, d)) + ItemsFor(Taken(results, r))
               && x.remaining == left - Price(Taken(durable, d)) - Price(Taken(results, r))
  {
    hide Size, Price, Taken, Estimate, DurablesTaken, ResultsTaken, Adds, Durables, Results;
    own := working != "" && !flagged && Size(working) <= budget;
    var start := Start(budget, baseline, working, flagged);
    d := DurablesPick(start, durable);
    var y := Durables(start, durable);
    PassAdds(start, y, Taken(durable, d));
    r := ResultsPick(y, results, Taken(durable, d));
    Both(start, y, Results(y, results), Taken(durable, d), Taken(results, r));
  }

  lemma Both(x: Context, y: Context, z: Context, a: seq<Candidate>, b: seq<Candidate>)
    requires Adds(x, y, a) && Adds(y, z, b)
    ensures z.sections == x.sections + SectionsOf(a) + SectionsOf(b) && z.items == x.items + ItemsFor(a) + ItemsFor(b)
    ensures z.remaining == x.remaining - Price(a) - Price(b)
  {
  }

  /** Where the passes over the candidates begin. */
  lemma Start(budget: nat, baseline: nat, working: string, flagged: bool) returns (start: Context)
    ensures start == WithBaseline(AfterWorking(Context(budget, 0, [], [], {}), working, flagged), baseline)
    ensures var own := working != "" && !flagged && Size(working) <= budget;
            var left := if own then budget - Size(working) else budget;
            start == Context(left, if left < baseline then left else baseline, if own then [working] else [], [], {})
  {
    EstimateIsSize(working);
    hide Size, Estimate;
    start := WithBaseline(AfterWorking(Context(budget, 0, [], [], {}), working, flagged), baseline);
    assert [] + [working] == [working];
  }

  // ---------------------------------------------------------------------------------------------
  // The text
  // ---------------------------------------------------------------------------------------------

  /** Every section after the first, each behind an empty line. */
  function Following(sections: seq<string>): string {
    if sections == [] then "" else "\n\n" + sections[0] + Following(sections[1..])
  }

  lemma {:induction false} FollowingMore(sections: seq<string>, last: string)
    ensures Following(sections + [last]) == Following(sections) + "\n\n" + last
    decreases |sections|
  {
    if sections == [] {
      assert [last][1..] == [] && sections + [last] == [last];
    } else {
      FollowingMore(sections[1..], last);
      assert (sections + [last])[1..] == sections[1..] + [last];
    }
  }

  /** The text is the heading with the sections under it, in their order; without any it says so. */
  lemma TextExactly(sections: seq<string>)
    ensures TextOf(sections) ==
            if sections == [] then "# Memory Context\n\n_No matching memory context._\n"
            else "# Memory Context\n\n" + sections[0] + Following(sections[1..])
  {
    if sections != [] {
      JoinedFront(sections);
    }
  }

  lemma {:induction false} JoinedFront(sections: seq<string>)
    requires sections != []
    ensures JoinSections(sections) == sections[0] + Following(sections[1..])
    decreases |sections|
  {
    if |sections| > 1 {
      var n := |sections| - 1;
      JoinedFront(sections[..n]);
      FollowingMore(sections[1..n], sections[n]);
      assert sections[1..n] + [sections[n]] == sections[1..] && sections[..n][1..] == sections[1..n];
    }
  }

  /** One more line, and one more behind an empty one. */
  lemma LineMore(lines: seq<string>, open: string, text: string, close: string)
    requires lines != []
    ensures Join(lines + [open + text + close]) == Join(lines) + ("\n" + open) + text + close
    ensures Join(lines + ["", open + text + close]) == Join(lines) + ("\n\n" + open) + text + close
  {
    var line := open + text + close;
    JoinSnoc(lines, line);
    JoinSnoc(lines, "");
    JoinSnoc(lines + [""], line);
    assert lines + [""] + [line] == lines + ["", line];
    hide Join;
    assert Join(lines) + "\n" + "" + "\n" + line == Join(lines) + "\n\n" + line;
  }

  /** An item is rendered line by line: its title, its identifier, path, sensitivity and score, and its excerpt; with the
      explaining lines behind it if they were asked for. */
  lemma ItemExactly(id: string, title: string, path: string, sensitivity: string, score: string, excerpt: string, why: Option<seq<string>>)
    ensures var item := Join(["## " + title] + ["", "- id: `" + id + "`"] + ["- path: `" + path + "`"]
                             + ["- sensitivity: `" + sensitivity + "`"] + ["- score: `" + score + "`"] + ["", excerpt] + [""]);
            RenderItem(id, title, path, sensitivity, score, excerpt, why) ==
            match why
            case None => item
            case Some(lines) => Rstrip(item) + "\n" + Join(["", "Why selected:"] + lines) + "\n"
  {
    hide Join, Rstrip;
    var titled := ["## " + title];
    OneLine("## " + title);
    LineMore(titled, "- id: `", id, "`");
    var named := titled + ["", "- id: `" + id + "`"];
    LineMore(named, "- path: `", path, "`");
    var placed := named + ["- path: `" + path + "`"];
    LineMore(placed, "- sensitivity: `", sensitivity, "`");
    var marked := placed + ["- sensitivity: `" + sensitivity + "`"];
    LineMore(marked, "- score: `", score, "`");
    var scored := marked + ["- score: `" + score + "`"];
    assert excerpt == "" + excerpt + "";
    LineMore(scored, "", excerpt, "");
    var written := scored + ["", excerpt];
    JoinSnoc(written, "");
    TextOfItem(id, title, path, sensitivity, score, excerpt);
  }

  lemma OneLine(line: string)
    ensures Join([line]) == line
  {
  }

  lemma Behind(text: string, mark: string, more: string)
    ensures text + (mark + more) == text + mark + more
  {
  }

  lemma TextOfItem(id: string, title: string, path: string, sensitivity: string, score: string, excerpt: string)
    ensures RenderItem(id, title, path, sensitivity, score, excerpt, None) ==
            "## " + title + ("\n\n" + "- id: `") + id + "`" + ("\n" + "- path: `") + path + "`"
            + ("\n" + "- sensitivity: `") + sensitivity + "`" + ("\n" + "- score: `") + score + "`" + ("\n\n" + "") + excerpt + "" + "\n" + ""
  {
    var a := "## " + title + "\n\n- id: `" + id;
    Behind(a, "`", "\n- path: `");
    var b := a + "`\n- path: `" + path;
    Behind(b, "`", "\n- sensitivity: `");
    var c := b + "`\n- sensitivity: `" + sensitivity;
    Behind(c, "`", "\n- score: `");
    var d := c + "`\n- score: `" + score;
    Behind(d, "`", "\n\n");
    assert "`" + "\n- path: `" == "`\n- path: `" && "`" + "\n- sensitivity: `" == "`\n- sensitivity: `";
    assert "`" + "\n- score: `" == "`\n- score: `" && "`" + "\n\n" == "`\n\n";
    assert "\n\n" + "- id: `" == "\n\n- id: `" && "\n" + "- path: `" == "\n- path: `" && "\n" + "- sensitivity: `" == "\n- sensitivity: `";
    assert "\n" + "- score: `" == "\n- score: `" && "\n\n" + "" == "\n\n";
  }
}
