/** The section edit is a lens on the parsed document: it sets one section, leaves the others,
    and a second edit overwrites the first. */
module SectionLens {
  import opened Wrappers
  import opened PyText
  import opened TomlScalar
  import opened TomlLine
  import opened SectionEdit

  predicate BarePath(path: Path) {
    path != [] && forall k | 0 <= k < |path| :: IsBareKey(path[k])
  }

  // ---------------------------------------------------------------------------------------------
  // What the writer prints, the parser reads
  // ---------------------------------------------------------------------------------------------

  lemma BareHasNo(s: string, c: char)
    requires IsBareKey(s) && !IsBareChar(c)
    ensures forall k | 0 <= k < |s| :: s[k] != c
  {
  }

  lemma {:induction false} SplitJoinDots(path: Path)
    requires BarePath(path)
    ensures SplitDots(JoinDots(path)) == path
    decreases |path|
  {
    BareHasNo(path[0], '.');
    if |path| == 1 {
      assert Find(path[0], '.') == |path[0]|;
    } else {
      var s := JoinDots(path);
      FindFirst(s, '.', |path[0]|);
      assert s[|path[0]| + 1..] == JoinDots(path[1..]) && s[..|path[0]|] == path[0];
      SplitJoinDots(path[1..]);
    }
  }

  lemma {:induction false} JoinDotsChars(path: Path)
    requires BarePath(path)
    ensures JoinDots(path) != "" && forall k | 0 <= k < |JoinDots(path)| :: IsBareChar(JoinDots(path)[k]) || JoinDots(path)[k] == '.'
    decreases |path|
  {
    if |path| > 1 {
      JoinDotsChars(path[1..]);
    }
  }

  lemma BareTrims(s: string)
    requires IsBareKey(s)
    ensures TrimBlank(s) == s
  {
    assert IsBareChar(s[0]) && IsBareChar(s[|s| - 1]);
  }

  lemma {:induction false} HeaderPathReads(path: Path)
    requires forall k | 0 <= k < |path| :: IsBareKey(path[k])
    ensures HeaderPath(path) == Some(path)
    decreases |path|
  {
    if path != [] {
      BareTrims(path[0]);
      HeaderPathReads(path[1..]);
      assert [path[0]] + path[1..] == path;
    }
  }

  lemma CanonicalReads(path: Path)
    requires BarePath(path)
    ensures ReadLine(Canonical(path)) == Header(path)
    ensures Strip(Canonical(path)) == Canonical(path)
  {
    var s := Canonical(path);
    var n := |JoinDots(path)| + 1;
    JoinDotsChars(path);
    assert s[n] == ']' && s[1..n] == JoinDots(path) && s[n + 1..] == "";
    assert forall j | 1 <= j < n :: s[j] == JoinDots(path)[j - 1];
    FindFirst(s, ']', n);
    SplitJoinDots(path);
    HeaderPathReads(path);
    BracketIsNoTail(s);
    assert SkipBlank(s) == s;
    assert Lstrip(s) == s && Rstrip(s) == s;
  }

  lemma {:induction false} BareRunReads(key: string, rest: string)
    requires forall k | 0 <= k < |key| :: IsBareChar(key[k])
    requires rest == "" || !IsBareChar(rest[0])
    ensures BareRun(key + rest) == |key|
    decreases |key|
  {
    if key == "" {
      assert key + rest == rest;
    } else {
      assert (key + rest)[1..] == key[1..] + rest;
      BareRunReads(key[1..], rest);
    }
  }

  predicate Printable(v: Value) {
    v.Float? ==> IsFloatToken(v.token)
  }

  lemma FormatStart(v: Value)
    requires Printable(v)
    ensures FormatScalar(v) != "" && !IsBlank(FormatScalar(v)[0])
  {
    match v
    case Int(n) =>
      DigitsRoundTrip(if n < 0 then -n else n);
      assert IsDigit(Digits(if n < 0 then -n else n)[0]);
    case _ =>
  }

  lemma AroundEquals(f: string)
    requires f != "" && !IsBlank(f[0])
    ensures SkipBlank(" = " + f) == "= " + f && SkipBlank(("= " + f)[1..]) == f
  {
    assert (" = " + f)[1..] == "= " + f;
    assert ("= " + f)[1..] == " " + f && (" " + f)[1..] == f;
  }

  lemma ReadsAsPair(key: string, f: string)
    requires IsBareKey(key) && f != "" && !IsBlank(f[0])
    ensures var s := key + " = " + f;
            ReadLine(s) == match ReadValue(f)
                           case None => Bad
                           case Some((value, rest)) => if IsTail(rest) then Pair(key, value) else Bad
  {
    var s := key + " = " + f;
    assert IsBareChar(s[0]) && s == key + (" = " + f);
    assert SkipBlank(s) == s && !IsTail(s);
    hide ReadValue, IsTail, SkipBlank;
    BareRunReads(key, " = " + f);
    assert s[|key|..] == " = " + f && s[..|key|] == key;
    AroundEquals(f);
  }

  /** A printed pair reads back as that pair, for exactly the readable values; any other is refused by the parser. */
  lemma PairReads(key: string, v: Value)
    requires IsBareKey(key) && Printable(v)
    ensures ReadLine(PairLine(key, v)) == if Readable(v) then Pair(key, v) else Bad
  {
    assert IsTail("");
    hide ReadValue, ReadLine, FormatScalar, Readable, IsTail;
    FormatStart(v);
    ValueRoundTrip(v);
    ReadsAsPair(key, FormatScalar(v));
  }

  // ---------------------------------------------------------------------------------------------
  // The editor's test for a header agrees with the parser on every line the parser accepts
  // ---------------------------------------------------------------------------------------------

  lemma {:induction false} LstripBlank(line: string)
    requires SkipBlank(line) == "" || !IsSpace(SkipBlank(line)[0])
    ensures Lstrip(line) == SkipBlank(line)
    decreases |line|
  {
    if line != "" && IsBlank(line[0]) {
      LstripBlank(line[1..]);
    }
  }

  lemma AcceptedStart(line: string)
    requires ReadLine(line) != Bad
    ensures SkipBlank(line) == "" || !IsSpace(SkipBlank(line)[0])
  {
    var s := SkipBlank(line);
    SkipBlankEnds(line);
    if s != "" && s[0] != '[' && !IsTail(s) {
      assert IsBareChar(s[0]);
    }
  }

  lemma StripReads(line: string)
    requires ReadLine(line) != Bad
    ensures ReadLine(Strip(line)) == ReadLine(line)
    ensures ReadLine(line).Header? ==> Strip(line) != "" && Strip(line)[0] == '['
    ensures !ReadLine(line).Header? ==> Strip(line) == "" || Strip(line)[0] != '['
  {
    AcceptedStart(line);
    LstripBlank(line);
    SkipBlankEnds(line);
    var s := SkipBlank(line);
    assert ReadLine(s) == ReadLine(line);
    ReadLineRstrip(s);
    RstripParts(s);
    StartsReads(s);
    StartsReads(Rstrip(s));
  }

  lemma StartsReads(s: string)
    requires SkipBlank(s) == s && ReadLine(s) != Bad
    ensures ReadLine(s).Header? <==> s != "" && s[0] == '['
  {
    if s != "" && s[0] == '[' {
      BracketIsNoTail(s);
    }
  }

  /** On a line the parser accepts, the editor sees a header exactly when the parser does, and the same one. */
  lemma TableHeaderReads(line: string)
    requires ReadLine(line) != Bad
    ensures TableHeader(line) == if ReadLine(line).Header? then Some(ReadLine(line).path) else None
  {
    hide ReadLine, Strip;
    StripReads(line);
  }

  // ---------------------------------------------------------------------------------------------
  // Folding over lines
  // ---------------------------------------------------------------------------------------------

  lemma {:induction false} FoldAppend(r: Reading, a: seq<string>, b: seq<string>)
    ensures Fold(r, a + b) == match Fold(r, a) case None => None case Some(m) => Fold(m, b)
    decreases |a|
  {
    if a == [] {
      assert a + b == b;
    } else {
      hide ReadLine, Take;
      assert (a + b)[1..] == a[1..] + b;
      match Take(r, ReadLine(a[0]))
      case None =>
      case Some(next) => FoldAppend(next, a[1..], b);
    }
  }

  lemma {:induction false} FoldAccepts(r: Reading, lines: seq<string>, k: nat)
    requires Fold(r, lines).Some? && k < |lines|
    ensures ReadLine(lines[k]) != Bad
    decreases |lines|
  {
    hide ReadLine;
    if k > 0 {
      FoldAccepts(Take(r, ReadLine(lines[0])).value, lines[1..], k - 1);
    }
  }

  /** White space at the end of the text is not part of the document. */
  lemma {:induction false} FoldTrimmed(r: Reading, lines: seq<string>)
    requires Fold(r, lines).Some?
    ensures Fold(r, TrimLines(lines)) == Fold(r, lines)
    decreases |lines|
  {
    if lines != [] {
      var n := |lines| - 1;
      var last := lines[n];
      assert lines == lines[..n] + [last];
      FoldAccepts(r, lines, n);
      ReadLineRstrip(last);
      FoldAppend(r, lines[..n], [last]);
      hide ReadLine;
      if Rstrip(last) == "" {
        assert ReadLine(last) == Blank by {
          BlankReads();
        }
        FoldTrimmed(r, lines[..n]);
      } else {
        FoldAppend(r, lines[..n], [Rstrip(last)]);
      }
    }
  }

  lemma BlankReads()
    ensures ReadLine("") == Blank
  {
  }

  predicate ReadableValues(values: Values) {
    forall k | 0 <= k < |values| :: IsBareKey(values[k].0) && Printable(values[k].1) && Readable(values[k].1)
  }

  lemma {:induction false} TableKeys(values: Values, key: string)
    ensures key in TableOf(values) <==> exists k :: 0 <= k < |values| && values[k].0 == key
    decreases |values|
  {
    if values != [] {
      var n := |values| - 1;
      TableKeys(values[..n], key);
      if key in TableOf(values[..n]) {
        var k :| 0 <= k < n && values[..n][k].0 == key;
        assert values[k].0 == key;
      }
      assert forall k | 0 <= k < n :: values[..n][k] == values[k];
    }
  }

  lemma {:induction false} FoldPairs(r: Reading, path: Path, values: Values)
    requires DistinctKeys(values) && ReadableValues(values)
    requires r.current == Some(path) && path in r.doc && r.doc[path] == map[]
    ensures Fold(r, PairLines(values)) == Some(Reading(r.doc[path := TableOf(values)], Some(path)))
    decreases |values|
  {
    hide ReadLine, PairLine, TableOf, Readable, Printable, IsBareKey, Fold, Take;
    if values == [] {
      NoPairs(r, path);
    } else {
      var n := |values| - 1;
      var (key, v) := values[n];
      PairReads(key, v);
      NewKey(values);
      var front := TableOf(values[..n]);
      FoldPairs(r, path, values[..n]);
      FoldAppend(r, PairLines(values[..n]), [PairLine(key, v)]);
      OnePair(Reading(r.doc[path := front], Some(path)), path, PairLine(key, v), key, v);
      assert r.doc[path := front][path := front[key := v]] == r.doc[path := front[key := v]];
    }
  }

  lemma NoPairs(r: Reading, path: Path)
    requires path in r.doc && r.doc[path] == map[]
    ensures Fold(r, []) == Some(r) && r.doc[path := TableOf([])] == r.doc
  {
    assert r.doc[path := map[]] == r.doc;
  }

  lemma NewKey(values: Values)
    requires DistinctKeys(values) && values != []
    ensures var n := |values| - 1;
            values[n].0 !in TableOf(values[..n]) && TableOf(values) == TableOf(values[..n])[values[n].0 := values[n].1]
  {
    var n := |values| - 1;
    TableKeys(values[..n], values[n].0);
    assert forall k | 0 <= k < n :: values[..n][k] == values[k];
  }

  lemma OnePair(r: Reading, path: Path, line: string, key: string, v: Value)
    requires ReadLine(line) == Pair(key, v) && r.current == Some(path) && path in r.doc && key !in r.doc[path]
    ensures Fold(r, [line]) == Some(Reading(r.doc[path := r.doc[path][key := v]], Some(path)))
  {
    hide ReadLine;
    assert [line][1..] == [];
  }

  lemma FoldCons(r: Reading, line: string, m: Reading, rest: seq<string>)
    requires Take(r, ReadLine(line)) == Some(m)
    ensures Fold(r, [line] + rest) == Fold(m, rest)
  {
    hide ReadLine;
    assert ([line] + rest)[1..] == rest;
  }

  /** The rendered lines add exactly the section. */
  lemma FoldRendered(r: Reading, path: Path, values: Values)
    requires BarePath(path) && DistinctKeys(values) && ReadableValues(values) && path !in r.doc
    ensures Fold(r, Rendered(path, values)) == Some(Reading(r.doc[path := TableOf(values)], Some(path)))
  {
    hide ReadLine, Strip, Canonical, PairLines, TableOf, BarePath, ReadableValues, DistinctKeys, Fold;
    var m := Reading(r.doc[path := map[]], Some(path));
    CanonicalReads(path);
    FoldPairs(m, path, values);
    assert m.doc[path := TableOf(values)] == r.doc[path := TableOf(values)];
    FoldCons(r, Canonical(path), m, PairLines(values));
  }

  // ---------------------------------------------------------------------------------------------
  // The edit on the lines
  // ---------------------------------------------------------------------------------------------

  /** The first header line of the section, if any, is spelled in a way the editor cannot replace. */
  predicate Rejects(lines: seq<string>, path: Path) {
    if lines == [] then false
    else if TableHeader(lines[0]) == Some(path) then Strip(lines[0]) != Canonical(path)
    else Rejects(lines[1..], path)
  }

  /** Changing one table that is not the current one changes nothing else about the reading. */
  lemma {:induction false} FoldFrame(r: Reading, path: Path, t: Table, lines: seq<string>)
    requires path in r.doc && r.current != Some(path) && Fold(r, lines).Some?
    ensures var f := Fold(r, lines).value;
            && path in f.doc && f.current != Some(path)
            && Fold(Reading(r.doc[path := t], r.current), lines) == Some(Reading(f.doc[path := t], f.current))
    decreases |lines|
  {
    hide ReadLine;
    if lines != [] {
      var line := ReadLine(lines[0]);
      TakeFrame(r, path, t, line);
      FoldFrame(Take(r, line).value, path, t, lines[1..]);
    }
  }

  lemma TakeFrame(r: Reading, path: Path, t: Table, line: Line)
    requires path in r.doc && r.current != Some(path) && Take(r, line).Some?
    ensures var n := Take(r, line).value;
            && path in n.doc && n.current != Some(path)
            && Take(Reading(r.doc[path := t], r.current), line) == Some(Reading(n.doc[path := t], n.current))
  {
    var n := Take(r, line).value;
    match line
    case Header(q) => assert r.doc[path := t][q := map[]] == n.doc[path := t];
    case Pair(key, value) =>
      var q := r.current.value;
      assert r.doc[path := t][q := r.doc[q][key := value]] == n.doc[path := t];
    case _ =>
  }

  /** A table that is open already is not opened again. */
  lemma {:induction false} OpenOnce(r: Reading, path: Path, lines: seq<string>)
    requires BarePath(path) && path in r.doc && Fold(r, lines).Some?
    ensures !Mentions(lines, Canonical(path)) && path in Fold(r, lines).value.doc
    decreases |lines|
  {
    if lines != [] {
      hide ReadLine, Strip, Canonical, BarePath, Take, Mentions;
      FoldAccepts(r, lines, 0);
      OpenLine(r, path, lines[0]);
      OpenOnce(Take(r, ReadLine(lines[0])).value, path, lines[1..]);
      MentionsTail(lines, Canonical(path));
    } else {
      assert !Mentions(lines, Canonical(path));
    }
  }

  lemma OpenLine(r: Reading, path: Path, line: string)
    requires BarePath(path) && path in r.doc && ReadLine(line) != Bad && Take(r, ReadLine(line)).Some?
    ensures Strip(line) != Canonical(path) && path in Take(r, ReadLine(line)).value.doc
  {
    CanonicalReads(path);
    StripReads(line);
    hide ReadLine, Strip, Canonical, BarePath;
  }

  /** The body of a section, up to the next header, only fills its table. */
  lemma {:induction false} FoldBody(r: Reading, path: Path, lines: seq<string>) returns (t: Table)
    requires r.current == Some(path) && path in r.doc && Fold(r, lines).Some?
    ensures Fold(r, lines) == Fold(Reading(r.doc[path := t], Some(path)), FromNextHeader(lines))
    ensures FromNextHeader(lines) != [] ==> ReadLine(FromNextHeader(lines)[0]).Header?
    decreases |lines|
  {
    t := r.doc[path];
    assert r.doc[path := t] == r.doc;
    if lines != [] {
      FoldAccepts(r, lines, 0);
      TableHeaderReads(lines[0]);
      hide ReadLine, TableHeader;
      if !ReadLine(lines[0]).Header? {
        var n := Take(r, ReadLine(lines[0])).value;
        t := FoldBody(n, path, lines[1..]);
        assert n.doc[path := t] == r.doc[path := t];
      }
    }
  }

  /** Everything after a replaced section reads as before. */
  lemma FoldAfter(m: Reading, path: Path, t: Table, rest: seq<string>)
    requires m.current == Some(path) && path in m.doc && Fold(m, rest).Some?
    requires rest != [] ==> ReadLine(rest[0]).Header?
    ensures Fold(Reading(m.doc[path := t], Some(path)), rest).Some?
    ensures Fold(Reading(m.doc[path := t], Some(path)), rest).value.doc == Fold(m, rest).value.doc[path := t]
  {
    hide ReadLine;
    if rest != [] {
      var q := ReadLine(rest[0]).path;
      var n := Reading(m.doc[q := map[]], Some(q));
      FoldFrame(n, path, t, rest[1..]);
      assert m.doc[path := t][q := map[]] == n.doc[path := t];
    }
  }

  lemma HeaderLine(line: string, path: Path)
    requires BarePath(path) && ReadLine(line) != Bad
    ensures Strip(line) == Canonical(path) ==> ReadLine(line) == Header(path) && TableHeader(line) == Some(path)
    ensures ReadLine(line) == Header(path) ==> TableHeader(line) == Some(path)
  {
    CanonicalReads(path);
    StripReads(line);
    TableHeaderReads(line);
  }

  /** The rendered section in front of what follows the one it replaces. */
  lemma RenderedBefore(r: Reading, path: Path, values: Values, was: Table, rest: seq<string>)
    requires BarePath(path) && DistinctKeys(values) && ReadableValues(values) && path !in r.doc
    requires Fold(Reading(r.doc[path := was], Some(path)), rest).Some?
    requires rest != [] ==> ReadLine(rest[0]).Header?
    ensures var after := Fold(r, Rendered(path, values) + (if rest == [] then [] else [""] + rest));
            after.Some?
            && after.value.doc == Fold(Reading(r.doc[path := was], Some(path)), rest).value.doc[path := TableOf(values)]
  {
    BlankReads();
    hide ReadLine, Rendered, TableOf, BarePath, DistinctKeys, ReadableValues;
    var before := Reading(r.doc[path := was], Some(path));
    FoldRendered(r, path, values);
    FoldAfter(before, path, TableOf(values), rest);
    assert before.doc[path := TableOf(values)] == r.doc[path := TableOf(values)];
    var tail := if rest == [] then [] else [""] + rest;
    FoldAppend(r, Rendered(path, values), tail);
    if rest != [] {
      assert tail[1..] == rest;
    }
  }

  lemma ReplacedHere(r: Reading, path: Path, values: Values, lines: seq<string>)
    requires BarePath(path) && DistinctKeys(values) && ReadableValues(values) && path !in r.doc
    requires lines != [] && Strip(lines[0]) == Canonical(path) && Fold(r, lines).Some?
    ensures var after := Fold(r, Replaced(lines, Canonical(path), Rendered(path, values)));
            after.Some? && after.value.doc == Fold(r, lines).value.doc[path := TableOf(values)]
  {
    hide ReadLine, Strip, Canonical, FromNextHeader, Rendered, TableOf, BarePath, DistinctKeys, ReadableValues;
    FoldAccepts(r, lines, 0);
    HeaderLine(lines[0], path);
    var m := Reading(r.doc[path := map[]], Some(path));
    var was := FoldBody(m, path, lines[1..]);
    var rest := FromNextHeader(lines[1..]);
    assert m.doc[path := was] == r.doc[path := was];
    RenderedBefore(r, path, values, was, rest);
    OpenOnce(Reading(r.doc[path := was], Some(path)), path, rest);
    NotMentioned(rest, Canonical(path), Rendered(path, values));
    assert Replaced(lines, Canonical(path), Rendered(path, values))
        == Rendered(path, values) + (if rest == [] then [] else [""] + rest);
  }

  /** On the lines of an accepted document the replacement sets exactly one table. */
  lemma {:induction false} ReplacedSets(r: Reading, path: Path, values: Values, lines: seq<string>)
    requires BarePath(path) && DistinctKeys(values) && ReadableValues(values) && path !in r.doc
    requires Fold(r, lines).Some? && !Rejects(lines, path)
    ensures Mentions(lines, Canonical(path)) <==> path in Fold(r, lines).value.doc
    ensures var after := Fold(r, Replaced(lines, Canonical(path), Rendered(path, values)));
            Mentions(lines, Canonical(path)) ==>
              after.Some? && after.value.doc == Fold(r, lines).value.doc[path := TableOf(values)]
    decreases |lines|
  {
    if lines != [] {
      FoldAccepts(r, lines, 0);
      HeaderLine(lines[0], path);
      if Strip(lines[0]) == Canonical(path) {
        ReplacedHere(r, path, values, lines);
        OpenOnce(Reading(r.doc[path := map[]], Some(path)), path, lines[1..]);
        MentionsAt(lines, 0, Canonical(path));
      } else {
        hide ReadLine, Strip, Canonical, Rendered, TableOf, TableHeader;
        var n := Take(r, ReadLine(lines[0])).value;
        ReplacedSets(n, path, values, lines[1..]);
        MentionsTail(lines, Canonical(path));
      }
    }
  }

  lemma MentionsTail(lines: seq<string>, canonical: string)
    requires lines != [] && Strip(lines[0]) != canonical
    ensures Mentions(lines, canonical) <==> Mentions(lines[1..], canonical)
  {
    if Mentions(lines, canonical) {
      var k :| 0 <= k < |lines| && Strip(lines[k]) == canonical;
      assert lines[1..][k - 1] == lines[k];
    }
    if Mentions(lines[1..], canonical) {
      var k :| 0 <= k < |lines[1..]| && Strip(lines[1..][k]) == canonical;
      assert lines[k + 1] == lines[1..][k];
    }
  }

  /** Setting a section: the edited lines read as the old document with exactly that table set. */
  lemma EditSets(path: Path, values: Values, lines: seq<string>)
    requires BarePath(path) && DistinctKeys(values) && ReadableValues(values)
    requires Fold(Unread, lines).Some? && !Rejects(lines, path)
    ensures var after := Fold(Unread, Edited(lines, Canonical(path), Rendered(path, values)));
            after.Some? && after.value.doc == Fold(Unread, lines).value.doc[path := TableOf(values)]
  {
    ReplacedSets(Unread, path, values, lines);
    BlankReads();
    hide ReadLine, Canonical, Rendered, TableOf, Mentions, Replaced;
    if !Mentions(lines, Canonical(path)) {
      var f := Fold(Unread, lines).value;
      var gap := if lines != [] && lines[|lines| - 1] != "" then [""] else [];
      FoldAppend(Unread, lines, gap);
      FoldAppend(Unread, lines + gap, Rendered(path, values));
      FoldRendered(f, path, values);
      assert Fold(f, gap) == Some(f);
    }
  }
}
