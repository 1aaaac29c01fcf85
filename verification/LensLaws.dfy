/** The laws of the section edit that span several edits, and where its one condition comes from. */
module LensLaws {
  import opened Wrappers
  import opened PyText
  import opened TomlScalar
  import opened TomlLine
  import opened SectionEdit
  import opened SectionLens
  import opened TextLens

  // ---------------------------------------------------------------------------------------------
  // An edit leaves every header as editable as it was
  // ---------------------------------------------------------------------------------------------

  ghost predicate NoHeader(lines: seq<string>, q: Path) {
    forall k | 0 <= k < |lines| :: TableHeader(lines[k]) != Some(q)
  }

  lemma {:induction false} RejectsTrim(lines: seq<string>, q: Path)
    ensures Rejects(TrimLines(lines), q) == Rejects(lines, q)
    decreases |lines|
  {
    if lines != [] {
      var x, rest := lines[0], lines[1..];
      assert lines == [x] + rest;
      TrimCons(x, rest);
      TrimOne(x);
      TableHeaderRstrip(x);
      StripRstrip(x);
      RejectsTrim(rest, q);
      if Rstrip(x) == "" {
        StripBlank(x);
      }
      hide TableHeader, Strip, Rstrip;
      if TrimLines(rest) != [] {
        assert ([x] + TrimLines(rest))[1..] == TrimLines(rest);
      }
    }
  }

  lemma {:induction false} RejectsSkipsBody(lines: seq<string>, q: Path)
    ensures Rejects(FromNextHeader(lines), q) == Rejects(lines, q)
    decreases |lines|
  {
    hide TableHeader, Strip, Canonical;
    if lines != [] && TableHeader(lines[0]).None? {
      RejectsSkipsBody(lines[1..], q);
    }
  }

  lemma {:induction false} RejectsSkips(front: seq<string>, lines: seq<string>, q: Path)
    requires NoHeader(front, q)
    ensures Rejects(front + lines, q) == Rejects(lines, q)
    decreases |front|
  {
    hide TableHeader, Strip, Canonical;
    if front == [] {
      assert front + lines == lines;
    } else {
      assert (front + lines)[1..] == front[1..] + lines;
      assert NoHeader(front[1..], q) by {
        assert forall k | 0 <= k < |front| - 1 :: front[1..][k] == front[k + 1];
      }
      RejectsSkips(front[1..], lines, q);
    }
  }

  lemma {:induction false} RejectsBefore(lines: seq<string>, tail: seq<string>, q: Path)
    requires !Rejects(tail, q)
    ensures Rejects(lines + tail, q) == Rejects(lines, q)
    decreases |lines|
  {
    hide TableHeader, Strip, Canonical;
    if lines == [] {
      assert lines + tail == tail;
    } else {
      assert (lines + tail)[1..] == lines[1..] + tail;
      RejectsBefore(lines[1..], tail, q);
    }
  }

  lemma PairsOpenNothing(values: Values, q: Path)
    requires ReadableValues(values)
    ensures NoHeader(PairLines(values), q)
  {
    hide TableHeader, ReadableValues;
    PairsAreHeadless(values);
  }

  /** The rendered section opens its own table canonically, and no other. */
  lemma RenderedAccepted(path: Path, values: Values, q: Path)
    requires BarePath(path) && ReadableValues(values)
    ensures !Rejects(Rendered(path, values), q)
    ensures path != q ==> NoHeader(Rendered(path, values), q)
  {
    CanonicalReads(path);
    CanonicalHeader(path, Canonical(path));
    PairsOpenNothing(values, q);
    hide TableHeader, Strip, Canonical, PairLines;
    assert Rendered(path, values)[1..] == PairLines(values);
    RejectsSkips(PairLines(values), [], q);
    assert PairLines(values) + [] == PairLines(values);
  }

  lemma {:induction false} RejectsReplaced(lines: seq<string>, path: Path, values: Values, q: Path)
    requires BarePath(path) && ReadableValues(values) && !Rejects(lines, q)
    ensures !Rejects(Replaced(lines, Canonical(path), Rendered(path, values)), q)
    decreases |lines|
  {
    if lines != [] {
      var canonical, rendered := Canonical(path), Rendered(path, values);
      RenderedAccepted(path, values, q);
      EmptyIsNoHeader();
      if Strip(lines[0]) == canonical {
        CanonicalHeader(path, lines[0]);
        hide TableHeader, Strip, Canonical, Rendered, FromNextHeader;
        var rest := FromNextHeader(lines[1..]);
        RejectsSkipsBody(lines[1..], q);
        if path == q {
          OpensAndAccepted(path, values, (if rest == [] then [] else [""] + Replaced(rest, canonical, rendered)));
        } else {
          RejectsReplaced(rest, path, values, q);
          RejectsSkips(rendered, (if rest == [] then [] else [""] + Replaced(rest, canonical, rendered)), q);
          assert rest != [] ==> ([""] + Replaced(rest, canonical, rendered))[1..] == Replaced(rest, canonical, rendered);
        }
      } else {
        hide TableHeader, Strip, Canonical, Rendered, FromNextHeader;
        if TableHeader(lines[0]) != Some(q) {
          RejectsReplaced(lines[1..], path, values, q);
          assert ([lines[0]] + Replaced(lines[1..], canonical, rendered))[1..] == Replaced(lines[1..], canonical, rendered);
        }
      }
    }
  }

  /** Behind a canonical header of the section nothing more is asked. */
  lemma OpensAndAccepted(path: Path, values: Values, tail: seq<string>)
    requires BarePath(path)
    ensures !Rejects(Rendered(path, values) + tail, path)
  {
    CanonicalReads(path);
    CanonicalHeader(path, Canonical(path));
    hide TableHeader, Strip, Canonical;
    assert (Rendered(path, values) + tail)[0] == Canonical(path);
  }

  lemma RejectsAppended(lines: seq<string>, rendered: seq<string>, q: Path)
    requires !Rejects(lines, q) && !Rejects(rendered, q)
    ensures !Rejects(Appended(lines, rendered), q)
  {
    EmptyIsNoHeader();
    hide TableHeader, Rejects;
    var gap := if lines != [] && lines[|lines| - 1] != "" then [""] else [];
    RejectsSkips(gap, rendered, q);
    RejectsBefore(lines, gap + rendered, q);
    assert lines + (gap + rendered) == Appended(lines, rendered);
  }

  lemma RejectsEdited(lines: seq<string>, path: Path, values: Values, q: Path)
    requires BarePath(path) && ReadableValues(values) && !Rejects(lines, q)
    ensures !Rejects(TrimLines(Edited(lines, Canonical(path), Rendered(path, values))), q)
  {
    hide Canonical, Rendered, Mentions, Replaced, BarePath, ReadableValues, TableHeader, Rejects, Appended;
    RenderedAccepted(path, values, q);
    RejectsReplaced(lines, path, values, q);
    RejectsAppended(lines, Rendered(path, values), q);
    RejectsTrim(Edited(lines, Canonical(path), Rendered(path, values)), q);
  }

  /** A file stays editable, for every section that was, whichever section is set. */
  lemma StaysEditable(text: Option<string>, path: Path, values: Values, q: Path)
    requires Editable(text, path) && Editable(text, q) && Clean(path, values)
    ensures Editable(Some(EditText(text, path, values)), q)
  {
    hide LfOnly, Edited, Canonical, Rendered, EditText, Rejects;
    EditTextSplits(text, path, values);
    EditTextSets(text, path, values);
    RejectsEdited(Existing(text), path, values, q);
  }

  /** Setting a section twice to the same values writes the same bytes. */
  lemma EditIsIdempotent(text: Option<string>, path: Path, values: Values)
    requires Editable(text, path) && Clean(path, values)
    ensures EditText(Some(EditText(text, path, values)), path, values) == EditText(text, path, values)
  {
    SecondEditOverwrites(text, path, values, values);
  }

  /** Edits of different sections commute on the parsed document. */
  lemma EditsCommute(text: Option<string>, p: Path, a: Values, q: Path, b: Values)
    requires Editable(text, p) && Editable(text, q) && Clean(p, a) && Clean(q, b) && p != q
    ensures ReadText(Some(EditText(Some(EditText(text, p, a)), q, b))) == ReadText(Some(EditText(Some(EditText(text, q, b)), p, a)))
    ensures ReadText(Some(EditText(Some(EditText(text, p, a)), q, b))).Some?
  {
    hide EditText, Editable, Writable, SafeValues, ReadText, TableOf;
    StaysEditable(text, p, a, q);
    StaysEditable(text, q, b, p);
    EditTextSets(text, p, a);
    EditTextSets(text, q, b);
    EditTextSets(Some(EditText(text, p, a)), q, b);
    EditTextSets(Some(EditText(text, q, b)), p, a);
    assert ReadText(text).Some? by { assert Editable(text, p); EditableReads(text, p); }
    var doc := ReadText(text).value;
    assert doc[p := TableOf(a)][q := TableOf(b)] == doc[q := TableOf(b)][p := TableOf(a)];
  }

  lemma EditableReads(text: Option<string>, p: Path)
    requires Editable(text, p)
    ensures ReadText(text).Some?
  {
  }

  // ---------------------------------------------------------------------------------------------
  // Why line feeds must be the only line breaks
  // ---------------------------------------------------------------------------------------------

  /** What the editor makes of a text before it edits: every line break becomes a line feed. */
  function Normalized(text: string): string {
    Join(Splitlines(text)) + "\n"
  }

  lemma NormalizedSplits(text: string)
    requires text != ""
    ensures Splitlines(Normalized(text)) == Splitlines(text) && LfOnly(Normalized(text))
  {
    SplitlinesBreakFree(text);
    SplitlinesOfJoin(Splitlines(text));
    JoinLfOnly(Splitlines(text));
    assert forall k | 0 <= k < |Join(Splitlines(text))| :: Normalized(text)[k] == Join(Splitlines(text))[k];
  }

  /** Whatever its line breaks, the edit of a text is the edit of its normalized form; so it sets exactly the
      section if and only if normalizing changes no other table. */
  lemma EditTextExact(text: string, path: Path, values: Values)
    requires text != "" && ReadDoc(text).Some? && Writable(path, values) && Editable(Some(Normalized(text)), path)
    ensures EditText(Some(text), path, values) == EditText(Some(Normalized(text)), path, values)
    ensures ReadText(Some(EditText(Some(text), path, values))) == Some(ReadDoc(text).value[path := TableOf(values)])
       <==> ReadDoc(text).value - {path} == ReadDoc(Normalized(text)).value - {path}
  {
    hide Splitlines, Normalized, LfOnly, Writable, TableOf, Rejects, ReadDoc, CandidateText, Edited;
    NormalizedSplits(text);
    EditTextSets(Some(Normalized(text)), path, values);
    SameButOne(ReadDoc(text).value, ReadDoc(Normalized(text)).value, path, TableOf(values));
  }

  lemma SameButOne(a: Doc, b: Doc, path: Path, t: Table)
    ensures a[path := t] == b[path := t] <==> a - {path} == b - {path}
  {
    assert a[path := t] - {path} == a - {path} && b[path := t] - {path} == b - {path};
    if a - {path} == b - {path} {
      forall q | q != path
        ensures (q in a <==> q in b) && (q in a && q in b ==> a[q] == b[q])
      {
        assert q in a <==> q in a - {path};
        assert q in b <==> q in b - {path};
      }
    }
  }

  const LINE_SEPARATOR: char := 0x2028 as char

  /** One section with one pair, and a comment in which a line separator is followed by another section's header. */
  function Fragile(p: Path, q: Path, key: string, v: Value): string {
    Canonical(p) + "\n" + (("#" + [LINE_SEPARATOR] + Canonical(q)) + "\n" + (PairLine(key, v) + "\n" + ""))
  }

  lemma SeparatorSplits(front: string, rest: string)
    requires BreakFree(front)
    ensures Splitlines(front + [LINE_SEPARATOR] + rest) == [front] + Splitlines(rest)
  {
    var s := front + [LINE_SEPARATOR] + rest;
    assert s[|front|] == LINE_SEPARATOR && s[..|front|] == front && s[|front| + 1..] == rest;
    FirstBreakAt(s, |front|);
  }

  lemma CommentReads(q: Path)
    requires BarePath(q)
    ensures ReadLine("#" + [LINE_SEPARATOR] + Canonical(q)) == Blank && ReadLine("#") == Blank && BreakFree("#")
    ensures OneLine("#" + [LINE_SEPARATOR] + Canonical(q))
  {
    CanonicalShape(q);
    var name := Canonical(q);
    assert forall k | 0 <= k < |name| :: !IsControl(name[k]) by {
      JoinDotsChars(q);
      assert forall k | 1 <= k < |name| - 1 :: name[k] == JoinDots(q)[k - 1];
    }
    hide Canonical;
    var s := "#" + [LINE_SEPARATOR] + name;
    assert forall k | 2 <= k < |s| :: s[k] == name[k - 2];
    assert SkipBlank(s) == s && SkipBlank("#") == "#";
  }

  lemma OneTableReads(header: string, comment: string, pair: string, p: Path, key: string, v: Value)
    requires ReadLine(header) == Header(p) && ReadLine(comment) == Blank && ReadLine(pair) == Pair(key, v) && ReadLine("") == Blank
    ensures Fold(Unread, [header] + ([comment] + ([pair] + ([""] + [])))) == Some(Reading(map[p := map[key := v]], Some(p)))
  {
    hide ReadLine;
    var r := Reading(map[p := map[]], Some(p));
    var filled := Reading(map[p := map[key := v]], Some(p));
    assert r.doc[p := map[key := v]] == filled.doc && map[][key := v] == map[key := v];
    assert Take(Unread, Header(p)) == Some(r) && Take(r, Pair(key, v)) == Some(filled);
    assert Take(r, Blank) == Some(r) && Take(filled, Blank) == Some(filled);
    NothingFolds(filled);
    hide Fold, Take;
    FoldCons(Unread, header, r, [comment] + ([pair] + ([""] + [])));
    FoldCons(r, comment, r, [pair] + ([""] + []));
    FoldCons(r, pair, filled, [""] + []);
    FoldCons(filled, "", filled, []);
  }

  /** TOML reads one table, holding the pair behind the comment. */
  lemma FragileReads(p: Path, q: Path, key: string, v: Value)
    requires BarePath(p) && BarePath(q) && IsBareKey(key) && Printable(v) && Readable(v) && LineSafeValue(v)
    ensures ReadDoc(Fragile(p, q, key, v)) == Some(map[p := map[key := v]])
  {
    CanonicalReads(p);
    CommentReads(q);
    PairReads(key, v);
    BlankReads();
    FragileLines(p, q, key, v);
    hide ReadLine, Canonical, PairLine, BreakFree, BarePath, IsBareKey, Readable, Printable, LineSafeValue, TomlLines, Fold, Fragile;
    OneTableReads(Canonical(p), "#" + [LINE_SEPARATOR] + Canonical(q), PairLine(key, v), p, key, v);
  }

  lemma FragileLines(p: Path, q: Path, key: string, v: Value)
    requires BarePath(p) && BarePath(q) && IsBareKey(key) && Printable(v) && Readable(v) && LineSafeValue(v)
    ensures TomlLines(Fragile(p, q, key, v))
            == [Canonical(p)] + (["#" + [LINE_SEPARATOR] + Canonical(q)] + ([PairLine(key, v)] + ([""] + [])))
  {
    CanonicalShape(p);
    CommentReads(q);
    PairLineShape(key, v);
    NoLines();
    hide ReadLine, Canonical, PairLine, BarePath, IsBareKey, Readable, Printable, LineSafeValue, TomlLines;
    var comment, pair := "#" + [LINE_SEPARATOR] + Canonical(q), PairLine(key, v);
    TomlLinesHead(Canonical(p), comment + "\n" + (pair + "\n" + ""));
    TomlLinesHead(comment, pair + "\n" + "");
    TomlLinesHead(pair, "");
    assert [""] + [] == [""];
  }

  lemma NoLines()
    ensures TomlLines("") == [""]
  {
  }

  lemma SeparatedSplits(a: string, b: string, pair: string)
    requires BreakFree(a) && BreakFree(b) && BreakFree(pair)
    ensures Splitlines(a + "\n" + (("#" + [LINE_SEPARATOR] + b) + "\n" + (pair + "\n" + ""))) == [a] + (["#"] + ([b] + [pair]))
  {
    assert BreakFree("#") && Splitlines("") == [];
    hide BreakFree, Splitlines;
    var rest := pair + "\n" + "";
    SplitlinesHead(a, ("#" + [LINE_SEPARATOR] + b) + "\n" + rest);
    assert ("#" + [LINE_SEPARATOR] + b) + "\n" + rest == "#" + [LINE_SEPARATOR] + (b + "\n" + rest);
    SeparatorSplits("#", b + "\n" + rest);
    SplitlinesHead(b, rest);
    SplitlinesHead(pair, "");
    assert [pair] + [] == [pair];
  }

  /** The editor sees the comment end at the separator, and the header behind it. */
  lemma FragileSplits(p: Path, q: Path, key: string, v: Value)
    requires BarePath(p) && BarePath(q) && IsBareKey(key) && Printable(v) && Readable(v) && LineSafeValue(v)
    ensures Splitlines(Fragile(p, q, key, v)) == [Canonical(p)] + (["#"] + ([Canonical(q)] + [PairLine(key, v)]))
  {
    CanonicalShape(p);
    CanonicalShape(q);
    PairLineShape(key, v);
    hide Canonical, PairLine, BreakFree, BarePath, IsBareKey, Readable, Printable, LineSafeValue, Splitlines;
    SeparatedSplits(Canonical(p), Canonical(q), PairLine(key, v));
  }

  lemma TwoTablesRead(a: string, hash: string, b: string, pair: string, p: Path, q: Path, key: string, v: Value)
    requires ReadLine(a) == Header(p) && ReadLine(hash) == Blank && ReadLine(b) == Header(q) && ReadLine(pair) == Pair(key, v)
    requires p != q
    ensures Fold(Unread, [a] + ([hash] + ([b] + ([pair] + [])))) == Some(Reading(map[p := map[], q := map[key := v]], Some(q)))
  {
    hide ReadLine;
    var one := Reading(map[p := map[]], Some(p));
    var two := Reading(map[p := map[], q := map[]], Some(q));
    var three := Reading(map[p := map[], q := map[key := v]], Some(q));
    assert one.doc[q := map[]] == two.doc && map[][key := v] == map[key := v] && two.doc[q := map[key := v]] == three.doc;
    assert Take(Unread, Header(p)) == Some(one) && Take(one, Header(q)) == Some(two) && Take(two, Pair(key, v)) == Some(three);
    assert Take(one, Blank) == Some(one);
    NothingFolds(three);
    hide Fold, Take;
    FoldCons(Unread, a, one, [hash] + ([b] + ([pair] + [])));
    FoldCons(one, hash, one, [b] + ([pair] + []));
    FoldCons(one, b, two, [pair] + []);
    FoldCons(two, pair, three, []);
  }

  lemma TwoTablesAccepted(p: Path, q: Path, pair: string)
    requires BarePath(p) && BarePath(q) && p != q
    ensures !Rejects([Canonical(p)] + (["#"] + ([Canonical(q)] + ([pair] + []))), q)
  {
    CanonicalReads(q);
    CanonicalReads(p);
    CanonicalHeader(p, Canonical(p));
    CanonicalHeader(q, Canonical(q));
    HashIsNoHeader();
    hide ReadLine, Strip, TableHeader, Canonical, BarePath;
    assert !Rejects([Canonical(q)] + ([pair] + []), q);
    hide Rejects;
    RejectsSkips(["#"], [Canonical(q)] + ([pair] + []), q);
    RejectsSkips([Canonical(p)], ["#"] + ([Canonical(q)] + ([pair] + [])), q);
  }

  lemma NothingFolds(r: Reading)
    ensures Fold(r, []) == Some(r)
  {
  }

  lemma FragileNormalized(p: Path, q: Path, key: string, v: Value)
    requires BarePath(p) && BarePath(q) && p != q && IsBareKey(key) && Printable(v) && Readable(v) && LineSafeValue(v)
    ensures var text := Fragile(p, q, key, v);
            text != "" && Editable(Some(Normalized(text)), q)
            && ReadDoc(Normalized(text)) == Some(map[p := map[], q := map[key := v]])
  {
    var text := Fragile(p, q, key, v);
    assert text != "";
    PairReads(key, v);
    hide Rejects, Fold, ReadLine, Canonical, PairLine, LfOnly, Lines, BarePath, IsBareKey, Readable, Printable, LineSafeValue, Splitlines, Fragile, Normalized, ReadDoc;
    NormalizedSplits(text);
    ReadDocLines(Normalized(text));
    FragileSplits(p, q, key, v);
    assert [PairLine(key, v)] == [PairLine(key, v)] + [];
    CanonicalReads(p);
    CanonicalReads(q);
    CommentReads(q);
    TwoTablesRead(Canonical(p), "#", Canonical(q), PairLine(key, v), p, q, key, v);
    TwoTablesAccepted(p, q, PairLine(key, v));
  }

  lemma HashIsNoHeader()
    ensures TableHeader("#") == None
  {
  }

  /** A line separator in a comment: the file parses, the edit of another section is accepted and its result
      parses too, and yet the first section has lost its pair. */
  lemma SeparatorLosesData(p: Path, q: Path, key: string, v: Value, values: Values)
    requires BarePath(p) && BarePath(q) && p != q && IsBareKey(key) && Printable(v) && Readable(v) && LineSafeValue(v)
    requires Writable(q, values)
    ensures var text := Some(Fragile(p, q, key, v));
            && ReadText(text) == Some(map[p := map[key := v]]) && !Rejects(Existing(text), q)
            && ReadText(Some(EditText(text, q, values))) == Some(map[p := map[], q := TableOf(values)])
  {
    hide EditText, ReadDoc, Rejects, Splitlines, Fragile, Normalized, LfOnly, BarePath, IsBareKey, Readable, Printable, LineSafeValue, Writable, TableOf;
    var text := Fragile(p, q, key, v);
    FragileReads(p, q, key, v);
    FragileNormalized(p, q, key, v);
    EditTextExact(text, q, values);
    EditTextSets(Some(Normalized(text)), q, values);
    NormalizedSplits(text);
    assert map[p := map[], q := map[key := v]][q := TableOf(values)] == map[p := map[], q := TableOf(values)];
  }

  // ---------------------------------------------------------------------------------------------
  // Keys that name tables
  // ---------------------------------------------------------------------------------------------

  /** The key of one table names another, or a step on the way to it. */
  predicate Names(p: Path, key: string, q: Path) {
    p + [key] <= q
  }

  /** A key that names a table: the line grammar takes it, TOML does not. */
  ghost predicate Clashes(doc: Doc) {
    exists p, q, key :: p in doc && q in doc && key in doc[p] && Names(p, key, q)
  }

  /** Setting this table makes such a key. */
  ghost predicate SetClashes(doc: Doc, path: Path, table: Table) {
    || (exists q, key :: q in doc && key in table && Names(path, key, q))
    || (exists p, key :: p in doc && key in doc[p] && p != path && Names(p, key, path))
  }

  /** What TOML makes of a text of the line grammar. */
  ghost function ReadStrict(text: Option<string>): Option<Doc> {
    match ReadText(text)
    case None => None
    case Some(doc) => if Clashes(doc) then None else Some(doc)
  }

  lemma SetClashesExactly(doc: Doc, path: Path, table: Table)
    requires !Clashes(doc)
    ensures Clashes(doc[path := table]) <==> SetClashes(doc, path, table)
  {
    NotItself(path);
    hide Names;
    var next := doc[path := table];
    if Clashes(next) {
      var p, q, key :| p in next && q in next && key in next[p] && Names(p, key, q);
      if p == path {
        assert q in doc && key in table;
      } else {
        assert p in doc && key in doc[p] && (q != path ==> q in doc);
      }
    }
    if q, key :| q in doc && key in table && Names(path, key, q) {
      assert path in next && q in next && key in next[path];
    }
    if p, key :| p in doc && key in doc[p] && p != path && Names(p, key, path) {
      assert p in next && path in next && key in next[p];
    }
  }

  lemma NamesBelow(p: Path, key: string, q: Path)
    ensures Names(p, key, q) ==> |q| > |p| && p <= q
  {
    assert p <= p + [key];
  }

  lemma NotItself(path: Path)
    ensures forall key :: !Names(path, key, path)
  {
    assert forall key :: |path + [key]| > |path|;
  }

  /** To TOML itself the edited text is the old document with exactly that section set; it is refused if and only if a new
      key names a table that is there, or a key that is there names the section. */
  lemma EditTextStrict(text: Option<string>, path: Path, values: Values)
    requires Editable(text, path) && Writable(path, values) && ReadStrict(text).Some?
    ensures ReadStrict(Some(EditText(text, path, values))) ==
            if SetClashes(ReadStrict(text).value, path, TableOf(values)) then None
            else Some(ReadStrict(text).value[path := TableOf(values)])
  {
    hide ReadText, EditText, Editable, Writable, Clashes, SetClashes, TableOf;
    EditTextSets(text, path, values);
    SetClashesExactly(ReadStrict(text).value, path, TableOf(values));
  }
}
