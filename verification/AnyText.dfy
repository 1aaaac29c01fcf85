/** What an edit of a section does to a text with whatever line breaks and whatever values: the exact condition under
    which it sets that section and nothing else. */
module AnyText {
  import opened Wrappers
  import opened PyText
  import opened TomlScalar
  import opened TomlLine
  import opened SectionEdit
  import opened SectionLens
  import opened TextLens

  /** The lines that the editor keeps: all but the section's canonical headers and what stands below them. */
  function Others(lines: seq<string>, canonical: string): seq<string>
    decreases |lines|
  {
    if lines == [] then []
    else if Strip(lines[0]) == canonical then Others(FromNextHeader(lines[1..]), canonical)
    else [lines[0]] + Others(lines[1..], canonical)
  }

  /** The kept lines of a text. White space at its end goes, unless the section is appended behind it. */
  ghost function OtherLines(text: Option<string>, path: Path): seq<string> {
    var lines := Existing(text);
    if Mentions(lines, Canonical(path)) then Others(TrimLines(lines), Canonical(path)) else lines
  }

  lemma {:induction false} NoneToDrop(lines: seq<string>, canonical: string)
    requires !Mentions(lines, canonical)
    ensures Others(lines, canonical) == lines
    decreases |lines|
  {
    hide Strip;
    if lines != [] {
      assert Strip(lines[0]) != canonical;
      assert !Mentions(lines[1..], canonical) by {
        assert forall k | 0 <= k < |lines[1..]| :: lines[1..][k] == lines[k + 1];
      }
      NoneToDrop(lines[1..], canonical);
    }
  }

  // ---------------------------------------------------------------------------------------------
  // Reading without one table
  // ---------------------------------------------------------------------------------------------

  lemma TakeLess(r: Reading, path: Path, line: Line)
    requires path in r.doc && r.current != Some(path) && Take(r, line).Some?
    ensures var n := Take(r, line).value;
            && path in n.doc && n.doc[path] == r.doc[path] && n.current != Some(path)
            && Take(Reading(r.doc - {path}, r.current), line) == Some(Reading(n.doc - {path}, n.current))
  {
    var n := Take(r, line).value;
    match line
    case Header(q) => assert (r.doc - {path})[q := map[]] == n.doc - {path};
    case Pair(key, value) =>
      var q := r.current.value;
      assert (r.doc - {path})[q] == r.doc[q];
      assert (r.doc - {path})[q := r.doc[q][key := value]] == n.doc - {path};
    case _ =>
  }

  /** A table that is not the current one can be taken away without a trace. */
  lemma {:induction false} FoldLess(r: Reading, path: Path, lines: seq<string>)
    requires path in r.doc && r.current != Some(path) && Fold(r, lines).Some?
    ensures var f := Fold(r, lines).value;
            && path in f.doc && f.doc[path] == r.doc[path]
            && Fold(Reading(r.doc - {path}, r.current), lines) == Some(Reading(f.doc - {path}, f.current))
    decreases |lines|
  {
    if lines != [] {
      hide ReadLine, Take;
      TakeLess(r, path, ReadLine(lines[0]));
      FoldLess(Take(r, ReadLine(lines[0])).value, path, lines[1..]);
    }
  }

  /** Reading the lines gives the document with exactly one table more than reading the others. */
  ghost predicate OneMore(r: Reading, path: Path, t: Table, lines: seq<string>, others: seq<string>) {
    Fold(r, lines).Some? ==>
      && Fold(r, others).Some? && path !in Fold(r, others).value.doc
      && Fold(r, lines).value.doc == Fold(r, others).value.doc[path := t]
  }

  lemma RenderedOpens(r: Reading, path: Path, values: Values, more: seq<string>)
    requires BarePath(path) && Fold(r, Rendered(path, values) + more).Some?
    ensures path !in r.doc
  {
    CanonicalReads(path);
    hide ReadLine, Canonical, BarePath, PairLines;
    assert (Rendered(path, values) + more)[0] == Canonical(path);
  }

  /** What follows the section begins with a header, so that it does not matter what it follows. */
  lemma AfterSection(r: Reading, path: Path, t: Table, rest: seq<string>)
    requires path !in r.doc && Fold(Reading(r.doc[path := t], Some(path)), rest).Some?
    requires rest != [] ==> TableHeader(rest[0]).Some?
    ensures Fold(r, rest).Some? && path !in Fold(r, rest).value.doc
    ensures Fold(Reading(r.doc[path := t], Some(path)), rest).value.doc == Fold(r, rest).value.doc[path := t]
  {
    hide ReadLine, TableHeader;
    var m := Reading(r.doc[path := t], Some(path));
    if rest != [] {
      FoldAccepts(m, rest, 0);
      TableHeaderReads(rest[0]);
      AfterHeader(r, path, t, ReadLine(rest[0]).path, rest);
    }
  }

  lemma AfterHeader(r: Reading, path: Path, t: Table, q: Path, rest: seq<string>)
    requires path !in r.doc && rest != [] && ReadLine(rest[0]) == Header(q)
    requires Fold(Reading(r.doc[path := t], Some(path)), rest).Some?
    ensures Fold(r, rest).Some? && path !in Fold(r, rest).value.doc
    ensures Fold(Reading(r.doc[path := t], Some(path)), rest).value.doc == Fold(r, rest).value.doc[path := t]
  {
    hide ReadLine;
    var m := Reading(r.doc[path := t], Some(path));
    var n := Reading(m.doc[q := map[]], Some(q));
    assert Take(m, Header(q)) == Some(n) && q != path;
    assert n.doc - {path} == r.doc[q := map[]];
    assert Take(r, Header(q)) == Some(Reading(n.doc - {path}, Some(q)));
    assert Fold(m, rest) == Fold(n, rest[1..]);
    assert Fold(r, rest) == Fold(Reading(n.doc - {path}, Some(q)), rest[1..]);
    hide Fold, Take;
    FoldLess(n, path, rest[1..]);
    var f := Fold(n, rest[1..]).value;
    assert f.doc == (f.doc - {path})[path := t];
  }

  lemma CanonicalMentions(path: Path, values: Values, more: seq<string>)
    requires BarePath(path)
    ensures Mentions(Rendered(path, values) + more, Canonical(path))
  {
    CanonicalReads(path);
    hide ReadLine, Canonical, BarePath, PairLines, Strip;
    assert (Rendered(path, values) + more)[0] == Canonical(path);
  }

  /** If the replacement still holds the section after it, the section is not mentioned again. */
  lemma {:induction false} ReplacedMentions(path: Path, values: Values, lines: seq<string>)
    requires BarePath(path) && Mentions(lines, Canonical(path))
    ensures Mentions(Replaced(lines, Canonical(path), Rendered(path, values)), Canonical(path))
    decreases |lines|
  {
    hide Strip, Canonical, BarePath, Rendered, FromNextHeader;
    if Strip(lines[0]) == Canonical(path) {
      var rest := FromNextHeader(lines[1..]);
      CanonicalMentions(path, values,
        if rest == [] then [] else [""] + Replaced(rest, Canonical(path), Rendered(path, values)));
    } else {
      MentionsTail(lines, Canonical(path));
      ReplacedMentions(path, values, lines[1..]);
      MentionsCons(lines[0], Replaced(lines[1..], Canonical(path), Rendered(path, values)), Canonical(path));
    }
  }

  lemma MentionsCons(x: string, lines: seq<string>, canonical: string)
    requires Mentions(lines, canonical)
    ensures Mentions([x] + lines, canonical)
  {
    hide Strip;
    var k :| 0 <= k < |lines| && Strip(lines[k]) == canonical;
    assert ([x] + lines)[k + 1] == lines[k];
  }

  lemma {:induction false} HeaderFirst(lines: seq<string>)
    ensures FromNextHeader(lines) != [] ==> TableHeader(FromNextHeader(lines)[0]).Some?
    decreases |lines|
  {
    hide TableHeader;
    if lines != [] && TableHeader(lines[0]).None? {
      HeaderFirst(lines[1..]);
    }
  }

  /** At the section: what is read of it and what follows. */
  lemma SectionExact(r: Reading, path: Path, values: Values, rest: seq<string>)
    requires BarePath(path) && DistinctKeys(values) && ReadableValues(values)
    requires rest != [] ==> TableHeader(rest[0]).Some?
    ensures var more := if rest == [] then [] else [""] + Replaced(rest, Canonical(path), Rendered(path, values));
            OneMore(r, path, TableOf(values), Rendered(path, values) + more, Others(rest, Canonical(path)))
  {
    hide ReadLine, Canonical, Rendered, TableOf, BarePath, DistinctKeys, ReadableValues, Replaced, Others, TableHeader, Fold, Mentions;
    var more := if rest == [] then [] else [""] + Replaced(rest, Canonical(path), Rendered(path, values));
    if Fold(r, Rendered(path, values) + more).Some? {
      RenderedOpens(r, path, values, more);
      FoldRendered(r, path, values);
      FoldAppend(r, Rendered(path, values), more);
      var m := Reading(r.doc[path := TableOf(values)], Some(path));
      var tail := Replaced(rest, Canonical(path), Rendered(path, values));
      NoneReplaced(rest, path, values);
      BlankInFront(m, tail);
      OpenOnce(m, path, if rest == [] then [] else tail);
      if Mentions(rest, Canonical(path)) {
        ReplacedMentions(path, values, rest);
      }
      NotMentioned(rest, Canonical(path), Rendered(path, values));
      NoneToDrop(rest, Canonical(path));
      AfterSection(r, path, TableOf(values), rest);
    }
  }

  lemma NoneReplaced(rest: seq<string>, path: Path, values: Values)
    ensures rest == [] ==> !Mentions(rest, Canonical(path)) && Replaced(rest, Canonical(path), Rendered(path, values)) == []
  {
  }

  lemma BlankInFront(r: Reading, lines: seq<string>)
    ensures Fold(r, [""] + lines) == Fold(r, lines)
  {
    BlankReads();
    FoldCons(r, "", r, lines);
  }

  /** On any lines: if the replacement can be read, it holds exactly the section and what the others say. */
  lemma {:induction false} ReplacedExact(r: Reading, path: Path, values: Values, lines: seq<string>)
    requires BarePath(path) && DistinctKeys(values) && ReadableValues(values) && Mentions(lines, Canonical(path))
    ensures OneMore(r, path, TableOf(values), Replaced(lines, Canonical(path), Rendered(path, values)), Others(lines, Canonical(path)))
    decreases |lines|
  {
    hide ReadLine, Strip, Canonical, Rendered, TableOf, BarePath, DistinctKeys, ReadableValues, FromNextHeader, Take;
    if Strip(lines[0]) == Canonical(path) {
      HeaderFirst(lines[1..]);
      SectionExact(r, path, values, FromNextHeader(lines[1..]));
    } else {
      MentionsTail(lines, Canonical(path));
      var line := ReadLine(lines[0]);
      if Take(r, line).Some? {
        ReplacedExact(Take(r, line).value, path, values, lines[1..]);
      }
    }
  }

  /** The same for a section that is appended. */
  lemma AppendedExact(path: Path, values: Values, lines: seq<string>)
    requires BarePath(path) && DistinctKeys(values) && ReadableValues(values)
    ensures OneMore(Unread, path, TableOf(values), Appended(lines, Rendered(path, values)), lines)
  {
    BlankReads();
    hide ReadLine, Canonical, Rendered, TableOf, BarePath, DistinctKeys, ReadableValues;
    var gap := if lines != [] && lines[|lines| - 1] != "" then [""] else [];
    FoldAppend(Unread, lines + gap, Rendered(path, values));
    FoldAppend(Unread, lines, gap);
    if Fold(Unread, Appended(lines, Rendered(path, values))).Some? {
      var f := Fold(Unread, lines).value;
      assert Fold(f, gap) == Some(f);
      assert Rendered(path, values) + [] == Rendered(path, values);
      RenderedOpens(f, path, values, []);
      FoldRendered(f, path, values);
    }
  }

  // ---------------------------------------------------------------------------------------------
  // From lines to the text
  // ---------------------------------------------------------------------------------------------

  /** The last line holds text and ends in it. */
  predicate Ended(lines: seq<string>) {
    lines != [] && Rstrip(lines[|lines| - 1]) == lines[|lines| - 1] != ""
  }

  lemma EndedStays(lines: seq<string>)
    requires Ended(lines)
    ensures TrimLines(lines) == lines
  {
    hide Rstrip;
    assert lines[..|lines| - 1] + [lines[|lines| - 1]] == lines;
  }

  lemma {:induction false} TrimmedEnds(lines: seq<string>)
    ensures TrimLines(lines) == [] || Ended(TrimLines(lines))
    decreases |lines|
  {
    if lines != [] {
      var n := |lines| - 1;
      if Rstrip(lines[n]) == "" {
        TrimmedEnds(lines[..n]);
      } else {
        RstripTwice(lines[n]);
      }
    }
  }

  lemma {:induction false} HeaderSuffix(lines: seq<string>)
    requires Ended(lines)
    ensures FromNextHeader(lines) == [] || Ended(FromNextHeader(lines))
    decreases |lines|
  {
    hide TableHeader, Rstrip;
    if |lines| > 1 {
      HeaderSuffix(lines[1..]);
    }
  }

  lemma RenderedEnded(path: Path, values: Values)
    requires BarePath(path) && ReadableValues(values)
    ensures Ended(Rendered(path, values))
  {
    RenderedEnds(path, values);
  }

  lemma EndedBehind(front: seq<string>, lines: seq<string>)
    requires Ended(lines)
    ensures Ended(front + lines)
  {
    hide Rstrip;
  }

  lemma {:induction false} ReplacedEnded(path: Path, values: Values, lines: seq<string>)
    requires BarePath(path) && ReadableValues(values) && Ended(lines)
    ensures Ended(Replaced(lines, Canonical(path), Rendered(path, values)))
    decreases |lines|
  {
    hide Strip, Canonical, BarePath, ReadableValues, Rendered, FromNextHeader, Rstrip;
    var rendered := Rendered(path, values);
    if Strip(lines[0]) == Canonical(path) {
      RenderedEnded(path, values);
      if |lines| > 1 {
        HeaderSuffix(lines[1..]);
        var rest := FromNextHeader(lines[1..]);
        if rest != [] {
          ReplacedEnded(path, values, rest);
          EndedBehind(rendered + [""], Replaced(rest, Canonical(path), rendered));
          assert (rendered + [""]) + Replaced(rest, Canonical(path), rendered)
              == rendered + ([""] + Replaced(rest, Canonical(path), rendered));
        } else {
          assert rendered + [] == rendered;
        }
      } else {
        assert FromNextHeader([]) == [] && lines[1..] == [] && rendered + [] == rendered;
      }
    } else if |lines| > 1 {
      ReplacedEnded(path, values, lines[1..]);
      EndedBehind([lines[0]], Replaced(lines[1..], Canonical(path), rendered));
    } else {
      assert lines[1..] == [] && Replaced([], Canonical(path), rendered) == [] && [lines[0]] + [] == lines;
    }
  }

  /** The edited lines without the white space at their end. */
  ghost function FinalLines(lines: seq<string>, path: Path, values: Values): seq<string> {
    if Mentions(lines, Canonical(path)) then Replaced(TrimLines(lines), Canonical(path), Rendered(path, values))
    else Appended(lines, Rendered(path, values))
  }

  lemma FinalLinesAre(lines: seq<string>, path: Path, values: Values)
    requires BarePath(path) && ReadableValues(values)
    ensures TrimLines(Edited(lines, Canonical(path), Rendered(path, values))) == FinalLines(lines, path, values)
  {
    CanonicalNonempty(path);
    hide Strip, Canonical, BarePath, ReadableValues, Rendered, Replaced, Rstrip, Mentions, TrimLines, Ended;
    var canonical, rendered := Canonical(path), Rendered(path, values);
    RenderedEnded(path, values);
    if Mentions(lines, canonical) {
      TrimThenReplace(lines, canonical, rendered);
      MentionsTrim(lines, canonical);
      TrimmedEnds(lines);
      NothingMentions(canonical);
      ReplacedEnded(path, values, TrimLines(lines));
      EndedStays(Replaced(TrimLines(lines), canonical, rendered));
    } else {
      var front := lines + (if lines != [] && lines[|lines| - 1] != "" then [""] else []);
      EndedBehind(front, rendered);
      EndedStays(front + rendered);
    }
  }

  lemma CanonicalNonempty(path: Path)
    ensures Canonical(path) != ""
  {
  }

  lemma NothingMentions(canonical: string)
    ensures !Mentions([], canonical)
  {
  }

  /** The edited text reads as its final lines. */
  lemma EditTextReads(text: Option<string>, path: Path, values: Values)
    requires Writable(path, values)
    ensures ReadDoc(EditText(text, path, values)) ==
            match Fold(Unread, FinalLines(Existing(text), path, values)) case None => None case Some(r) => Some(r.doc)
  {
    hide Strip, Canonical, BarePath, ReadableValues, DistinctKeys, Rendered, FinalLines, Edited, Lines, OneLine, ReadLine, Fold, TomlLines;
    var lines := Existing(text);
    var output := Edited(lines, Canonical(path), Rendered(path, values));
    FinalLinesAre(lines, path, values);
    ExistingLines(text);
    EditedOneLine(lines, path, values);
    EditedNonblank(lines, path, values);
    RstripJoin(output);
    TrimLinesOneLine(output);
    TomlLinesOfJoin(TrimLines(output));
    FoldAppend(Unread, TrimLines(output), [""]);
    LastBlank();
    ReadDocIs(EditText(text, path, values));
  }

  lemma ReadDocIs(text: string)
    ensures ReadDoc(text) == match Fold(Unread, TomlLines(text)) case None => None case Some(r) => Some(r.doc)
  {
  }

  lemma LastBlank()
    ensures forall r :: Fold(r, [""]) == Some(r)
  {
    BlankReads();
  }

  lemma ExistingLines(text: Option<string>)
    ensures Lines(Existing(text))
  {
    if text.Some? {
      SplitlinesBreakFree(text.value);
    }
  }

  /** For every text that parses and every result that parses: the edit sets exactly its section if and only if the
      lines that the editor keeps say what the text says about all other tables. */
  lemma EditExact(text: Option<string>, path: Path, values: Values)
    requires ReadText(text).Some? && Writable(path, values) && ReadDoc(EditText(text, path, values)).Some?
    ensures var others := Fold(Unread, OtherLines(text, path));
            && others.Some? && path !in others.value.doc
            && ReadDoc(EditText(text, path, values)) == Some(others.value.doc[path := TableOf(values)])
            && (ReadDoc(EditText(text, path, values)) == Some(ReadText(text).value[path := TableOf(values)])
                <==> others.value.doc == ReadText(text).value - {path})
  {
    hide Strip, Canonical, BarePath, ReadableValues, DistinctKeys, Rendered, Replaced, Others, Mentions, TrimLines, Fold, ReadDoc,
         TableOf, EditText, Appended;
    var lines := Existing(text);
    EditTextReads(text, path, values);
    if Mentions(lines, Canonical(path)) {
      CanonicalNonempty(path);
      MentionsTrim(lines, Canonical(path));
      ReplacedExact(Unread, path, values, TrimLines(lines));
    } else {
      AppendedExact(path, values, lines);
    }
    OneTableMore(Fold(Unread, OtherLines(text, path)).value.doc, ReadText(text).value, path, TableOf(values));
  }

  lemma OneTableMore(a: Doc, b: Doc, path: Path, t: Table)
    requires path !in a
    ensures a[path := t] == b[path := t] <==> a == b - {path}
  {
    if a[path := t] == b[path := t] {
      assert a == a[path := t] - {path} && b - {path} == b[path := t] - {path};
    }
    if a == b - {path} {
      assert a[path := t] == b[path := t];
    }
  }
}
