/** The section edit on whole texts: setting, overwriting and commuting. */
module TextLens {
  import opened Wrappers
  import opened PyText
  import opened TomlScalar
  import opened TomlLine
  import opened SectionEdit
  import opened SectionLens

  function Existing(text: Option<string>): seq<string> {
    match text
    case None => []
    case Some(t) => Splitlines(t)
  }

  function CandidateText(output: seq<string>): string {
    Rstrip(Join(output)) + "\n"
  }

  /** The complete text with which the target is replaced. */
  ghost function EditText(text: Option<string>, path: Path, values: Values): string {
    CandidateText(Edited(Existing(text), Canonical(path), Rendered(path, values)))
  }

  function ReadText(text: Option<string>): Option<Doc> {
    match text
    case None => Some(map[])
    case Some(t) => ReadDoc(t)
  }

  // ---------------------------------------------------------------------------------------------
  // Line feeds are the only line breaks
  // ---------------------------------------------------------------------------------------------

  /** The printer escapes every line break but these three. */
  predicate LineSafe(s: string) {
    forall k | 0 <= k < |s| :: (s[k] as int) != 0x85 && (s[k] as int) != 0x2028 && (s[k] as int) != 0x2029
  }

  predicate LineSafeValue(v: Value) {
    match v
    case Str(s) => LineSafe(s)
    case List(items) => forall k | 0 <= k < |items| :: LineSafe(items[k])
    case _ => true
  }

  lemma {:induction false} EscapeBreakFree(s: string)
    ensures BreakFree(Escape(s)) <==> LineSafe(s)
    decreases |s|
  {
    if s != "" {
      EscapeBreakFree(s[1..]);
      EscapedBreakFree(s[0]);
      BreakFreeConcat(Escaped(s[0]), Escape(s[1..]));
      assert LineSafe(s) <==> LineSafe([s[0]]) && LineSafe(s[1..]) by {
        assert s == [s[0]] + s[1..];
        assert forall k | 1 <= k < |s| :: s[k] == s[1..][k - 1];
        assert [s[0]][0] == s[0];
      }
    }
  }

  lemma EscapedBreakFree(c: char)
    ensures BreakFree(Escaped(c)) <==> LineSafe([c])
  {
    assert [c][0] == c;
    if |Escaped(c)| == 1 {
      assert Escaped(c)[0] == c;
    }
  }

  lemma BreakFreeConcat(a: string, b: string)
    ensures BreakFree(a + b) <==> BreakFree(a) && BreakFree(b)
  {
    assert forall k | 0 <= k < |a| :: (a + b)[k] == a[k];
    assert forall k | 0 <= k < |b| :: (a + b)[|a| + k] == b[k];
  }

  lemma {:induction false} ItemsBreakFree(items: seq<string>)
    requires forall k | 0 <= k < |items| :: LineSafe(items[k])
    ensures BreakFree(Items(items))
    decreases |items|
  {
    if items != [] {
      EscapeBreakFree(items[0]);
      BreakFreeConcat("\"", Escape(items[0]));
      BreakFreeConcat("\"" + Escape(items[0]), "\"");
      ItemsBreakFree(items[1..]);
      if |items| > 1 {
        BreakFreeConcat(Quoted(items[0]), ", ");
        BreakFreeConcat(Quoted(items[0]) + ", ", Items(items[1..]));
      }
    }
  }

  lemma {:induction false} DigitsBreakFree(n: nat)
    ensures BreakFree(Digits(n))
    decreases n
  {
    if n >= 10 {
      DigitsBreakFree(n / 10);
    }
  }

  lemma ScalarBreakFree(v: Value)
    requires Printable(v) && LineSafeValue(v)
    ensures BreakFree(FormatScalar(v))
  {
    match v
    case Bool(b) =>
    case Int(n) =>
      DigitsBreakFree(if n < 0 then -n else n);
    case Float(token) => NumberRunEnds(token);
    case Str(s) =>
      EscapeBreakFree(s);
      BreakFreeConcat("\"", Escape(s));
      BreakFreeConcat("\"" + Escape(s), "\"");
    case List(items) =>
      ItemsBreakFree(items);
      BreakFreeConcat("[", Items(items));
      BreakFreeConcat("[" + Items(items), "]");
  }

  predicate SafeValues(values: Values) {
    forall k | 0 <= k < |values| :: LineSafeValue(values[k].1)
  }

  lemma PairLineShape(key: string, v: Value)
    requires IsBareKey(key) && Printable(v) && LineSafeValue(v)
    ensures BreakFree(PairLine(key, v))
  {
    ScalarBreakFree(v);
    assert BreakFree(key) by {
      assert forall k | 0 <= k < |key| :: IsBareChar(key[k]);
    }
    hide FormatScalar;
    BreakFreeConcat(key, " = ");
    BreakFreeConcat(key + " = ", FormatScalar(v));
  }

  lemma {:induction false} PairLinesShape(values: Values)
    requires ReadableValues(values) && SafeValues(values)
    ensures Lines(PairLines(values))
    decreases |values|
  {
    if values != [] {
      var n := |values| - 1;
      PairLinesShape(values[..n]);
      PairLineShape(values[n].0, values[n].1);
    }
  }

  lemma CanonicalShape(path: Path)
    requires BarePath(path)
    ensures BreakFree(Canonical(path))
  {
    JoinDotsChars(path);
    assert forall k | 0 <= k < |JoinDots(path)| :: !IsBreak(JoinDots(path)[k]);
    BreakFreeConcat("[", JoinDots(path));
    BreakFreeConcat("[" + JoinDots(path), "]");
  }

  lemma RenderedShape(path: Path, values: Values)
    requires BarePath(path) && ReadableValues(values) && SafeValues(values)
    ensures Lines(Rendered(path, values))
  {
    CanonicalShape(path);
    PairLinesShape(values);
  }

  /** A printed value never ends in white space. */
  lemma ScalarEnds(v: Value)
    requires Printable(v) && Readable(v)
    ensures FormatScalar(v) != "" && !IsSpace(FormatScalar(v)[|FormatScalar(v)| - 1])
  {
    ValueRoundTrip(v);
    ReadValueEnds(FormatScalar(v));
  }

  /** The rendered section ends in a line that stripping leaves alone. */
  lemma RenderedEnds(path: Path, values: Values)
    requires BarePath(path) && ReadableValues(values)
    ensures var last := Rendered(path, values)[|Rendered(path, values)| - 1];
            last != "" && Rstrip(last) == last
  {
    if values == [] {
      assert Canonical(path)[|Canonical(path)| - 1] == ']';
    } else {
      var (key, v) := values[|values| - 1];
      ScalarEnds(v);
      assert PairLine(key, v)[|PairLine(key, v)| - 1] == FormatScalar(v)[|FormatScalar(v)| - 1];
    }
  }

  // ---------------------------------------------------------------------------------------------
  // Texts and lines
  // ---------------------------------------------------------------------------------------------

  lemma BlankTaken(r: Reading)
    ensures Fold(r, TomlLines("")) == Fold(r, Splitlines(""))
  {
    BlankReads();
    assert Fold(r, [""]) == Some(r);
  }

  lemma OneLfLine(text: string)
    requires LfOnly(text) && text != "" && Find(text, '\n') == |text|
    ensures TomlLines(text) == Splitlines(text)
  {
    assert forall j | 0 <= j < |text| :: !IsBreak(text[j]);
    assert FirstBreak(text) == |text|;
  }

  lemma FirstLfLine(text: string)
    requires LfOnly(text) && Find(text, '\n') < |text|
    ensures var k := Find(text, '\n');
            && LfOnly(text[k + 1..])
            && TomlLines(text) == [text[..k]] + TomlLines(text[k + 1..])
            && Splitlines(text) == [text[..k]] + Splitlines(text[k + 1..])
  {
    hide LfOnly, IsBreak, BreakFree, FirstBreak, Find;
    var k := Find(text, '\n');
    LfOnlyRest(text, k + 1);
    BeforeLf(text);
    FirstBreakAt(text, k);
  }

  lemma LfOnlyRest(text: string, from: nat)
    requires LfOnly(text) && from <= |text|
    ensures LfOnly(text[from..])
  {
    forall j | 0 <= j < |text[from..]| && IsBreak(text[from..][j])
      ensures text[from..][j] == '\n'
    {
      assert text[from..][j] == text[j + from];
    }
  }

  lemma BeforeLf(text: string)
    requires LfOnly(text)
    ensures BreakFree(text[..Find(text, '\n')])
  {
    var k := Find(text, '\n');
    assert forall j | 0 <= j < k :: text[..k][j] == text[j];
  }

  lemma {:induction false} TomlLinesAreSplitlines(r: Reading, text: string)
    requires LfOnly(text)
    ensures Fold(r, TomlLines(text)) == Fold(r, Splitlines(text))
    decreases |text|
  {
    hide ReadLine, Take, Find, FirstBreak, LfOnly, IsBreak;
    var k := Find(text, '\n');
    if text == "" {
      BlankTaken(r);
    } else if k == |text| {
      OneLfLine(text);
    } else {
      FirstLfLine(text);
      match Take(r, ReadLine(text[..k]))
      case None =>
      case Some(next) => TomlLinesAreSplitlines(next, text[k + 1..]);
    }
  }

  lemma ReadDocLines(text: string)
    requires LfOnly(text)
    ensures ReadDoc(text) == match Fold(Unread, Splitlines(text)) case None => None case Some(r) => Some(r.doc)
  {
    TomlLinesAreSplitlines(Unread, text);
  }

  lemma {:induction false} JoinLfOnly(lines: seq<string>)
    requires Lines(lines)
    ensures LfOnly(Join(lines))
    decreases |lines|
  {
    if |lines| > 1 {
      JoinLfOnly(lines[1..]);
      var a, b := lines[0] + "\n", Join(lines[1..]);
      assert Join(lines) == a + b;
      assert forall k | 0 <= k < |a| :: (a + b)[k] == a[k];
      assert forall k | 0 <= k < |b| :: (a + b)[|a| + k] == b[k];
    } else if |lines| == 1 {
      assert BreakFree(lines[0]);
    }
  }

  /** The candidate text splits back into the output lines, less the white space at the end. */
  lemma CandidateSplits(output: seq<string>)
    requires Lines(output) && TrimLines(output) != []
    ensures Splitlines(CandidateText(output)) == TrimLines(output) && LfOnly(CandidateText(output))
  {
    RstripJoin(output);
    TrimLinesBreakFree(output);
    SplitlinesOfJoin(TrimLines(output));
    JoinLfOnly(TrimLines(output));
    assert forall k | 0 <= k < |Join(TrimLines(output))| :: CandidateText(output)[k] == Join(TrimLines(output))[k];
  }

  // ---------------------------------------------------------------------------------------------
  // Setting
  // ---------------------------------------------------------------------------------------------

  /** The lines are all of one kind. */
  ghost predicate Each(lines: seq<string>, kind: string -> bool) {
    forall k | 0 <= k < |lines| :: kind(lines[k])
  }

  lemma {:induction false} FromNextHeaderEach(lines: seq<string>, kind: string -> bool)
    requires Each(lines, kind)
    ensures Each(FromNextHeader(lines), kind)
    decreases |lines|
  {
    hide TableHeader;
    if lines != [] && TableHeader(lines[0]).None? {
      FromNextHeaderEach(lines[1..], kind);
    }
  }

  lemma {:induction false} ReplacedEach(lines: seq<string>, canonical: string, rendered: seq<string>, kind: string -> bool)
    requires Each(lines, kind) && Each(rendered, kind) && kind("")
    ensures Each(Replaced(lines, canonical, rendered), kind)
    decreases |lines|
  {
    hide Strip, FromNextHeader;
    if lines != [] {
      if Strip(lines[0]) == canonical {
        FromNextHeaderEach(lines[1..], kind);
        ReplacedEach(FromNextHeader(lines[1..]), canonical, rendered, kind);
      } else {
        ReplacedEach(lines[1..], canonical, rendered, kind);
      }
    }
  }

  /** An edit only moves lines around: existing ones, rendered ones and empty ones. */
  lemma EditedEach(lines: seq<string>, canonical: string, rendered: seq<string>, kind: string -> bool)
    requires Each(lines, kind) && Each(rendered, kind) && kind("")
    ensures Each(Edited(lines, canonical, rendered), kind)
  {
    hide Mentions, Replaced;
    ReplacedEach(lines, canonical, rendered, kind);
  }

  lemma {:induction false} TrimmedNonempty(lines: seq<string>, k: nat)
    requires k < |lines| && Rstrip(lines[k]) != ""
    ensures TrimLines(lines) != []
    decreases |lines|
  {
    if k < |lines| - 1 {
      TrimmedNonempty(lines[..|lines| - 1], k);
    }
  }

  /** Some output line always holds text: the section's own header. */
  lemma {:induction false} ReplacedMentions(lines: seq<string>, canonical: string, rendered: seq<string>) returns (k: nat)
    requires Mentions(lines, canonical) && rendered != []
    ensures k < |Replaced(lines, canonical, rendered)| && Replaced(lines, canonical, rendered)[k] == rendered[0]
    decreases |lines|
  {
    hide Strip, FromNextHeader;
    if Strip(lines[0]) == canonical {
      k := 0;
    } else {
      MentionsTail(lines, canonical);
      k := ReplacedMentions(lines[1..], canonical, rendered);
      k := k + 1;
    }
  }

  lemma EditedNonblank(lines: seq<string>, path: Path, values: Values)
    requires BarePath(path)
    ensures TrimLines(Edited(lines, Canonical(path), Rendered(path, values))) != []
  {
    var canonical, rendered := Canonical(path), Rendered(path, values);
    assert Rstrip(canonical) == canonical && canonical != "" && rendered[0] == canonical;
    hide Rstrip, Canonical, Mentions, Replaced, Rendered;
    if Mentions(lines, canonical) {
      var k := ReplacedMentions(lines, canonical, rendered);
      TrimmedNonempty(Replaced(lines, canonical, rendered), k);
    } else {
      TrimmedNonempty(Appended(lines, rendered), |Appended(lines, rendered)| - |rendered|);
    }
  }

  /** The values that the parser reads back as they are. */
  predicate Writable(path: Path, values: Values) {
    BarePath(path) && DistinctKeys(values) && ReadableValues(values)
  }

  /** Writable, and free of the three line breaks that the printer leaves unescaped. */
  predicate Clean(path: Path, values: Values) {
    Writable(path, values) && SafeValues(values)
  }

  /** The file, if there is one, has line feeds only, parses, and spells the section's header canonically. */
  predicate Editable(text: Option<string>, path: Path) {
    && (text.Some? ==> LfOnly(text.value))
    && ReadText(text).Some?
    && !Rejects(Existing(text), path)
  }

  lemma ExistingReads(text: Option<string>)
    requires text.Some? ==> LfOnly(text.value)
    ensures Lines(Existing(text))
    ensures ReadText(text) == match Fold(Unread, Existing(text)) case None => None case Some(r) => Some(r.doc)
  {
    match text
    case None =>
    case Some(t) =>
      SplitlinesBreakFree(t);
      ReadDocLines(t);
  }

  lemma EditedBreakFree(lines: seq<string>, canonical: string, rendered: seq<string>)
    requires Lines(lines) && Lines(rendered)
    ensures Lines(Edited(lines, canonical, rendered))
  {
    assert BreakFree("");
    hide BreakFree, Edited;
    EditedEach(lines, canonical, rendered, BreakFree);
  }

  /** The lines of the edited text are the edited lines without the white space at their end. */
  lemma EditTextSplits(text: Option<string>, path: Path, values: Values)
    requires (text.Some? ==> LfOnly(text.value)) && Clean(path, values)
    ensures LfOnly(EditText(text, path, values))
    ensures Splitlines(EditText(text, path, values))
            == TrimLines(Edited(Existing(text), Canonical(path), Rendered(path, values)))
  {
    hide BreakFree, LfOnly, Edited, Canonical, Rendered, CandidateText;
    ExistingReads(text);
    RenderedShape(path, values);
    EditedBreakFree(Existing(text), Canonical(path), Rendered(path, values));
    EditedNonblank(Existing(text), path, values);
    CandidateSplits(Edited(Existing(text), Canonical(path), Rendered(path, values)));
  }

  predicate OneLine(s: string) {
    forall k | 0 <= k < |s| :: s[k] != '\n'
  }

  lemma OneLineConcat(a: string, b: string)
    ensures OneLine(a + b) <==> OneLine(a) && OneLine(b)
  {
    assert forall k | 0 <= k < |a| :: (a + b)[k] == a[k];
    assert forall k | 0 <= k < |b| :: (a + b)[|a| + k] == b[k];
  }

  lemma EscapedOneLine(c: char)
    ensures OneLine(Escaped(c))
  {
  }

  lemma {:induction false} EscapeOneLine(s: string)
    ensures OneLine(Escape(s))
    decreases |s|
  {
    if s != "" {
      EscapedOneLine(s[0]);
      EscapeOneLine(s[1..]);
      hide OneLine, Escaped;
      OneLineConcat(Escaped(s[0]), Escape(s[1..]));
    }
  }

  lemma QuotedOneLine(s: string)
    ensures OneLine(Quoted(s))
  {
    EscapeOneLine(s);
    assert OneLine("\"");
    hide OneLine, Escape;
    OneLineConcat("\"", Escape(s));
    OneLineConcat("\"" + Escape(s), "\"");
  }

  lemma {:induction false} ItemsOneLine(items: seq<string>)
    ensures OneLine(Items(items))
    decreases |items|
  {
    if items != [] {
      QuotedOneLine(items[0]);
      ItemsOneLine(items[1..]);
      if |items| > 1 {
        OneLineConcat(Quoted(items[0]), ", ");
        OneLineConcat(Quoted(items[0]) + ", ", Items(items[1..]));
      }
    }
  }

  /** The printer escapes line feeds, so every pair stays on one line of the file. */
  lemma PairOneLine(key: string, v: Value)
    requires IsBareKey(key) && Printable(v)
    ensures OneLine(PairLine(key, v))
  {
    match v
    case Int(n) => DigitsBreakFree(if n < 0 then -n else n);
    case Float(token) => NumberRunEnds(token);
    case Str(s) => QuotedOneLine(s);
    case List(items) =>
      ItemsOneLine(items);
      OneLineConcat("[", Items(items));
      OneLineConcat("[" + Items(items), "]");
    case _ =>
    assert OneLine(key) by {
      assert forall k | 0 <= k < |key| :: IsBareChar(key[k]);
    }
    hide FormatScalar;
    OneLineConcat(key, " = ");
    OneLineConcat(key + " = ", FormatScalar(v));
  }

  lemma {:induction false} PairsOneLine(values: Values)
    requires forall k | 0 <= k < |values| :: IsBareKey(values[k].0) && Printable(values[k].1)
    ensures Each(PairLines(values), OneLine)
    decreases |values|
  {
    hide OneLine, PairLine, IsBareKey, Printable;
    if values != [] {
      var n := |values| - 1;
      PairsOneLine(values[..n]);
      PairOneLine(values[n].0, values[n].1);
    }
  }

  lemma TomlLinesHead(line: string, rest: string)
    requires OneLine(line)
    ensures TomlLines(line + "\n" + rest) == [line] + TomlLines(rest)
  {
    var s := line + "\n" + rest;
    assert s[|line|] == '\n' && s[..|line|] == line && s[|line| + 1..] == rest;
    FindFirst(s, '\n', |line|);
  }

  lemma {:induction false} TomlLinesOfJoin(lines: seq<string>)
    requires lines != [] && Each(lines, OneLine)
    ensures TomlLines(Join(lines) + "\n") == lines + [""]
    decreases |lines|
  {
    hide OneLine;
    if |lines| == 1 {
      assert Join(lines) + "\n" == lines[0] + "\n" + "";
      TomlLinesHead(lines[0], "");
    } else {
      TomlLinesOfJoin(lines[1..]);
      assert Join(lines) + "\n" == lines[0] + "\n" + (Join(lines[1..]) + "\n");
      TomlLinesHead(lines[0], Join(lines[1..]) + "\n");
    }
  }

  lemma {:induction false} TrimLinesOneLine(lines: seq<string>)
    requires Each(lines, OneLine)
    ensures Each(TrimLines(lines), OneLine)
    decreases |lines|
  {
    if lines != [] {
      var n := |lines| - 1;
      RstripParts(lines[n]);
      TrimLinesOneLine(lines[..n]);
    }
  }

  /** Reading the candidate text is reading the output lines. */
  lemma CandidateReads(output: seq<string>)
    requires Each(output, OneLine) && TrimLines(output) != [] && Fold(Unread, output).Some?
    ensures ReadDoc(CandidateText(output)) == Some(Fold(Unread, output).value.doc)
  {
    RstripJoin(output);
    TrimLinesOneLine(output);
    TomlLinesOfJoin(TrimLines(output));
    BlankReads();
    hide ReadLine;
    FoldTrimmed(Unread, output);
    FoldAppend(Unread, TrimLines(output), [""]);
  }

  lemma EditedOneLine(lines: seq<string>, path: Path, values: Values)
    requires Lines(lines) && BarePath(path) && ReadableValues(values)
    ensures Each(Edited(lines, Canonical(path), Rendered(path, values)), OneLine)
  {
    CanonicalShape(path);
    PairsOneLine(values);
    assert forall s: string :: BreakFree(s) ==> OneLine(s);
    assert OneLine("");
    hide OneLine, BreakFree, Edited, BarePath, ReadableValues, Canonical;
    EditedEach(lines, Canonical(path), Rendered(path, values), OneLine);
  }

  /** Setting a section: the new text parses, the section is exactly the values, and no other table changes. */
  lemma EditTextSets(text: Option<string>, path: Path, values: Values)
    requires Editable(text, path) && Writable(path, values)
    ensures ReadText(Some(EditText(text, path, values))) == Some(ReadText(text).value[path := TableOf(values)])
  {
    hide LfOnly, Edited, Canonical, Rendered, CandidateText, TableOf, Rejects, Lines, OneLine, TrimLines;
    ExistingReads(text);
    EditSets(path, values, Existing(text));
    EditedOneLine(Existing(text), path, values);
    EditedNonblank(Existing(text), path, values);
    CandidateReads(Edited(Existing(text), Canonical(path), Rendered(path, values)));
  }

  // ---------------------------------------------------------------------------------------------
  // White space at the end never matters to an edit
  // ---------------------------------------------------------------------------------------------

  lemma StripRstrip(s: string)
    ensures Strip(Rstrip(s)) == Strip(s)
  {
    RstripParts(s);
    if AllSpace(s) {
      RstripEmpty(s);
      LstripEmpty(s);
    } else {
      LstripRstrip(s);
      RstripTwice(Lstrip(s));
    }
  }

  lemma {:induction false} LstripRstrip(s: string)
    requires !AllSpace(s)
    ensures Lstrip(Rstrip(s)) == Rstrip(Lstrip(s))
    decreases |s|
  {
    if IsSpace(s[0]) {
      assert s == [s[0]] + s[1..];
      var k :| 0 <= k < |s| && !IsSpace(s[k]);
      assert s[1..][k - 1] == s[k];
      RstripEmpty(s[1..]);
      RstripKeepsFront([s[0]], s[1..]);
      assert Rstrip(s)[1..] == Rstrip(s[1..]);
      LstripRstrip(s[1..]);
    } else {
      RstripEmpty(s);
      RstripParts(s);
    }
  }

  lemma TableHeaderRstrip(s: string)
    ensures TableHeader(Rstrip(s)) == TableHeader(s)
  {
    StripRstrip(s);
  }

  lemma StripBlank(s: string)
    requires Rstrip(s) == ""
    ensures Strip(s) == "" && TableHeader(s) == None
  {
    StripRstrip(s);
  }

  lemma {:induction false} TrimCons(x: string, y: seq<string>)
    ensures TrimLines([x] + y) == if TrimLines(y) == [] then TrimLines([x]) else [x] + TrimLines(y)
    decreases |y|
  {
    if y == [] {
      assert [x] + y == [x];
    } else {
      var n := |y| - 1;
      assert ([x] + y)[..n + 1] == [x] + y[..n];
      if Rstrip(y[n]) == "" {
        TrimCons(x, y[..n]);
      } else {
        assert ([x] + y[..n]) + [Rstrip(y[n])] == [x] + (y[..n] + [Rstrip(y[n])]);
      }
    }
  }

  lemma TrimOne(x: string)
    ensures TrimLines([x]) == if Rstrip(x) == "" then [] else [Rstrip(x)]
  {
    assert [x][..0] == [];
  }

  /** A text with nothing but white space left trims to nothing; its lines are all blank. */
  lemma {:induction false} TrimmedAway(lines: seq<string>)
    requires TrimLines(lines) == []
    ensures forall k | 0 <= k < |lines| :: Rstrip(lines[k]) == ""
    decreases |lines|
  {
    if lines != [] {
      TrimmedAway(lines[..|lines| - 1]);
    }
  }

  lemma {:induction false} FromNextHeaderTrim(lines: seq<string>)
    ensures FromNextHeader(TrimLines(lines)) == TrimLines(FromNextHeader(lines))
    ensures FromNextHeader(lines) != [] ==> TrimLines(FromNextHeader(lines)) != []
    decreases |lines|
  {
    if lines != [] {
      assert lines == [lines[0]] + lines[1..];
      TrimCons(lines[0], lines[1..]);
      TrimOne(lines[0]);
      TableHeaderRstrip(lines[0]);
      FromNextHeaderTrim(lines[1..]);
      hide TableHeader, Rstrip;
      if TableHeader(lines[0]).Some? {
        assert Rstrip(lines[0]) != "" by {
          if Rstrip(lines[0]) == "" { StripBlank(lines[0]); }
        }
        TrimmedNonempty(lines, 0);
        if TrimLines(lines[1..]) == [] {
          assert TrimLines(lines) == [Rstrip(lines[0])];
        } else {
          assert TrimLines(lines)[0] == lines[0];
        }
      } else if TrimLines(lines[1..]) != [] {
        assert TrimLines(lines)[1..] == TrimLines(lines[1..]);
      }
    }
  }

  lemma {:induction false} MentionsTrim(lines: seq<string>, canonical: string)
    requires canonical != ""
    ensures Mentions(TrimLines(lines), canonical) <==> Mentions(lines, canonical)
    decreases |lines|
  {
    if lines != [] {
      var n := |lines| - 1;
      assert lines == lines[..n] + [lines[n]];
      MentionsOneMore(lines[..n], lines[n], canonical);
      StripRstrip(lines[n]);
      hide Strip, Rstrip;
      if Rstrip(lines[n]) == "" {
        StripBlank(lines[n]);
        MentionsTrim(lines[..n], canonical);
      } else {
        MentionsOneMore(lines[..n], Rstrip(lines[n]), canonical);
      }
    }
  }

  /** Two line sequences that differ at most in the white space at their end. */
  predicate Alike(a: seq<string>, b: seq<string>) {
    TrimLines(a) == TrimLines(b)
  }

  lemma AlikeCons(x: string, a: seq<string>, b: seq<string>)
    requires Alike(a, b)
    ensures Alike([x] + a, [x] + b)
  {
    TrimCons(x, a);
    TrimCons(x, b);
  }

  lemma {:induction false} AlikeFront(front: seq<string>, a: seq<string>, b: seq<string>)
    requires Alike(a, b)
    ensures Alike(front + a, front + b)
    decreases |front|
  {
    if front == [] {
      assert front + a == a && front + b == b;
    } else {
      AlikeFront(front[1..], a, b);
      AlikeCons(front[0], front[1..] + a, front[1..] + b);
      assert [front[0]] + (front[1..] + a) == front + a;
      assert [front[0]] + (front[1..] + b) == front + b;
    }
  }

  /** Replacing in a text and replacing in the text without its trailing white space come to the same. */
  lemma {:induction false} TrimThenReplace(lines: seq<string>, canonical: string, rendered: seq<string>)
    requires canonical != ""
    ensures Alike(Replaced(TrimLines(lines), canonical, rendered), Replaced(lines, canonical, rendered))
    decreases |lines|
  {
    if lines != [] {
      hide Strip, Rstrip, TrimLines, FromNextHeader, Alike, Replaced;
      var x, rest := lines[0], lines[1..];
      if TrimLines(rest) == [] {
        TrimThenReplaceLast(lines, canonical, rendered);
      } else {
        assert lines == [x] + rest;
        TrimCons(x, rest);
        var t := TrimLines(lines);
        assert t[0] == x && t[1..] == TrimLines(rest);
        if Strip(x) == canonical {
          FromNextHeaderTrim(rest);
          var after := FromNextHeader(rest);
          ReplacedHeader(lines, canonical, rendered);
          ReplacedHeader(t, canonical, rendered);
          if after == [] {
            NothingIsAlike(rendered);
          } else {
            TrimThenReplace(after, canonical, rendered);
            AlikeFront(rendered + [""], Replaced(TrimLines(after), canonical, rendered), Replaced(after, canonical, rendered));
          }
        } else {
          ReplacedOther(lines, canonical, rendered);
          ReplacedOther(t, canonical, rendered);
          TrimThenReplace(rest, canonical, rendered);
          AlikeCons(x, Replaced(TrimLines(rest), canonical, rendered), Replaced(rest, canonical, rendered));
        }
      }
    }
  }

  lemma NothingIsAlike(rendered: seq<string>)
    ensures TrimLines([]) == [] && Alike(rendered, rendered)
  {
  }

  lemma ReplacedHeader(lines: seq<string>, canonical: string, rendered: seq<string>)
    requires lines != [] && Strip(lines[0]) == canonical
    ensures var after := FromNextHeader(lines[1..]);
            Replaced(lines, canonical, rendered) ==
            if after == [] then rendered else (rendered + [""]) + Replaced(after, canonical, rendered)
  {
    hide Strip, FromNextHeader;
    var y := Replaced(FromNextHeader(lines[1..]), canonical, rendered);
    assert rendered + ([""] + y) == (rendered + [""]) + y;
    assert rendered + [] == rendered;
  }

  lemma ReplacedOther(lines: seq<string>, canonical: string, rendered: seq<string>)
    requires lines != [] && Strip(lines[0]) != canonical
    ensures Replaced(lines, canonical, rendered) == [lines[0]] + Replaced(lines[1..], canonical, rendered)
  {
    hide Strip, FromNextHeader;
  }

  /** Only the first line holds text. */
  lemma TrimThenReplaceLast(lines: seq<string>, canonical: string, rendered: seq<string>)
    requires canonical != "" && lines != [] && TrimLines(lines[1..]) == []
    ensures Alike(Replaced(TrimLines(lines), canonical, rendered), Replaced(lines, canonical, rendered))
  {
    var x, rest := lines[0], lines[1..];
    assert lines == [x] + rest;
    TrimCons(x, rest);
    TrimOne(x);
    StripRstrip(x);
    BlankLinesUnmentioned(rest, canonical);
    NotMentioned(rest, canonical, rendered);
    FromNextHeaderTrim(rest);
    TrimLinesTwice(lines);
    hide Strip, TableHeader;
    if Rstrip(x) == "" {
      StripBlank(x);
    } else if Strip(x) != canonical {
      assert Replaced(lines, canonical, rendered) == [x] + rest;
      assert Replaced(TrimLines(lines), canonical, rendered) == TrimLines(lines);
    }
  }

  lemma BlankLinesUnmentioned(lines: seq<string>, canonical: string)
    requires canonical != "" && TrimLines(lines) == []
    ensures !Mentions(lines, canonical)
  {
    TrimmedAway(lines);
    forall k | 0 <= k < |lines|
      ensures Strip(lines[k]) != canonical
    {
      StripBlank(lines[k]);
    }
  }

  // ---------------------------------------------------------------------------------------------
  // Overwriting
  // ---------------------------------------------------------------------------------------------

  lemma {:induction false} ReplacedSkips(front: seq<string>, lines: seq<string>, canonical: string, rendered: seq<string>)
    requires !Mentions(front, canonical)
    ensures Replaced(front + lines, canonical, rendered) == front + Replaced(lines, canonical, rendered)
    decreases |front|
  {
    hide Strip, FromNextHeader;
    if front == [] {
      assert front + lines == lines;
    } else {
      assert Strip(front[0]) != canonical;
      MentionsTail(front, canonical);
      assert (front + lines)[1..] == front[1..] + lines;
      ReplacedSkips(front[1..], lines, canonical, rendered);
    }
  }

  lemma PairIsNoHeader(key: string, v: Value)
    requires IsBareKey(key) && Printable(v) && Readable(v)
    ensures TableHeader(PairLine(key, v)) == None
  {
    hide ReadLine, TableHeader, PairLine;
    PairReads(key, v);
    TableHeaderReads(PairLine(key, v));
  }

  /** None of the lines is a header. */
  ghost predicate Headless(lines: seq<string>) {
    forall k | 0 <= k < |lines| :: TableHeader(lines[k]) == None
  }

  lemma {:induction false} PairsAreHeadless(values: Values)
    requires ReadableValues(values)
    ensures Headless(PairLines(values))
    decreases |values|
  {
    hide TableHeader, PairLine, IsBareKey, Readable, Printable;
    if values != [] {
      var n := |values| - 1;
      PairsAreHeadless(values[..n]);
      PairIsNoHeader(values[n].0, values[n].1);
    }
  }

  lemma {:induction false} HeaderBehind(front: seq<string>, tail: seq<string>)
    requires Headless(front)
    ensures FromNextHeader(front + tail) == FromNextHeader(tail)
    decreases |front|
  {
    hide TableHeader;
    if front == [] {
      assert front + tail == tail;
    } else {
      assert (front + tail)[1..] == front[1..] + tail;
      HeaderBehind(front[1..], tail);
    }
  }

  lemma HeaderAfterPairs(values: Values, tail: seq<string>)
    requires ReadableValues(values)
    ensures FromNextHeader(PairLines(values) + tail) == FromNextHeader(tail)
  {
    hide FromNextHeader, ReadableValues;
    PairsAreHeadless(values);
    HeaderBehind(PairLines(values), tail);
  }

  lemma EmptyIsNoHeader()
    ensures TableHeader("") == None
  {
  }

  lemma CanonicalHeader(path: Path, line: string)
    requires BarePath(path) && Strip(line) == Canonical(path)
    ensures TableHeader(line) == Some(path)
  {
    CanonicalReads(path);
  }

  lemma ReplacedAtHead(head: string, lines: seq<string>, canonical: string, rendered: seq<string>)
    requires Strip(head) == canonical
    ensures var rest := FromNextHeader(lines);
            Replaced([head] + lines, canonical, rendered)
            == rendered + (if rest == [] then [] else [""] + Replaced(rest, canonical, rendered))
  {
    hide Strip, FromNextHeader;
    assert ([head] + lines)[1..] == lines;
  }

  lemma HeaderAfterGap(rest: seq<string>)
    requires FromNextHeader(rest) == rest
    ensures FromNextHeader(if rest == [] then [] else [""] + rest) == rest
  {
    EmptyIsNoHeader();
    hide TableHeader;
    if rest != [] {
      assert ([""] + rest)[1..] == rest;
    }
  }

  /** Replacing a rendered section, followed by another table or by nothing. */
  lemma ReplacesRendered(path: Path, first: Values, rest: seq<string>, rendered: seq<string>)
    requires BarePath(path) && ReadableValues(first)
    requires FromNextHeader(rest) == rest && !Mentions(rest, Canonical(path))
    ensures var tail := if rest == [] then [] else [""] + rest;
            Replaced(Rendered(path, first) + tail, Canonical(path), rendered) == rendered + tail
  {
    hide Strip, Canonical, Mentions, BarePath, ReadableValues, Replaced, FromNextHeader, PairLines;
    CanonicalReads(path);
    var tail := if rest == [] then [] else [""] + rest;
    assert Rendered(path, first) + tail == [Canonical(path)] + (PairLines(first) + tail);
    ReplacedAtHead(Canonical(path), PairLines(first) + tail, Canonical(path), rendered);
    HeaderAfterPairs(first, tail);
    HeaderAfterGap(rest);
    NotMentioned(rest, Canonical(path), rendered);
  }

  lemma {:induction false} FromNextHeaderTwice(lines: seq<string>)
    ensures FromNextHeader(FromNextHeader(lines)) == FromNextHeader(lines)
    decreases |lines|
  {
    hide TableHeader;
    if lines != [] && TableHeader(lines[0]).None? {
      FromNextHeaderTwice(lines[1..]);
    }
  }

  /** Only one header opens the section, so nothing after its body mentions it again. */
  lemma MentionedOnce(r: Reading, path: Path, lines: seq<string>)
    requires BarePath(path) && path !in r.doc && lines != [] && Strip(lines[0]) == Canonical(path) && Fold(r, lines).Some?
    ensures !Mentions(FromNextHeader(lines[1..]), Canonical(path))
  {
    hide ReadLine, Strip, Canonical, TableHeader, Mentions, BarePath;
    FoldAccepts(r, lines, 0);
    HeaderLine(lines[0], path);
    var m := Reading(r.doc[path := map[]], Some(path));
    var was := FoldBody(m, path, lines[1..]);
    OpenOnce(Reading(m.doc[path := was], Some(path)), path, FromNextHeader(lines[1..]));
  }

  lemma {:induction false} ReplacedTwice(r: Reading, path: Path, first: Values, lines: seq<string>, rendered: seq<string>)
    requires BarePath(path) && ReadableValues(first) && path !in r.doc
    requires Fold(r, lines).Some? && !Rejects(lines, path)
    ensures Replaced(Replaced(lines, Canonical(path), Rendered(path, first)), Canonical(path), rendered)
            == Replaced(lines, Canonical(path), rendered)
    decreases |lines|
  {
    if lines != [] {
      FoldAccepts(r, lines, 0);
      HeaderLine(lines[0], path);
      hide ReadLine, Strip, Canonical, Rendered, TableHeader, Mentions, BarePath, ReadableValues;
      if Strip(lines[0]) == Canonical(path) {
        var rest := FromNextHeader(lines[1..]);
        MentionedOnce(r, path, lines);
        FromNextHeaderTwice(lines[1..]);
        NotMentioned(rest, Canonical(path), Rendered(path, first));
        NotMentioned(rest, Canonical(path), rendered);
        ReplacesRendered(path, first, rest, rendered);
      } else {
        var n := Take(r, ReadLine(lines[0])).value;
        ReplacedTwice(n, path, first, lines[1..], rendered);
        var inner := Replaced(lines[1..], Canonical(path), Rendered(path, first));
        assert ([lines[0]] + inner)[1..] == inner;
      }
    }
  }

  lemma ReplacedAppended(path: Path, first: Values, lines: seq<string>, rendered: seq<string>)
    requires BarePath(path) && ReadableValues(first) && !Mentions(lines, Canonical(path))
    ensures Replaced(Appended(lines, Rendered(path, first)), Canonical(path), rendered) == Appended(lines, rendered)
  {
    BlankUnmentioned(path);
    NothingFollows();
    hide Strip, Canonical, Rendered, Mentions, Replaced, FromNextHeader, BarePath, ReadableValues;
    var gap := if lines != [] && lines[|lines| - 1] != "" then [""] else [];
    if gap != [] {
      MentionsOneMore(lines, "", Canonical(path));
    } else {
      assert lines + gap == lines;
    }
    ReplacedSkips(lines + gap, Rendered(path, first), Canonical(path), rendered);
    assert Rendered(path, first) + [] == Rendered(path, first);
    ReplacesRendered(path, first, [], rendered);
  }

  /** Editing the edited lines of a section, up to white space at the end, is editing the original lines. */
  lemma EditedTwice(path: Path, first: Values, second: Values, lines: seq<string>)
    requires BarePath(path) && ReadableValues(first)
    requires Fold(Unread, lines).Some? && !Rejects(lines, path)
    ensures var canonical, rendered := Canonical(path), Rendered(path, second);
            Alike(Edited(TrimLines(Edited(lines, canonical, Rendered(path, first))), canonical, rendered),
                  Edited(lines, canonical, rendered))
  {
    var canonical, rendered := Canonical(path), Rendered(path, second);
    assert canonical != "";
    hide Canonical, Rendered, Mentions, Replaced, Rejects, Fold, Appended, ReadableValues, BarePath;
    var once := Edited(lines, canonical, Rendered(path, first));
    OnceMentions(path, first, lines);
    MentionsTrim(once, canonical);
    TrimThenReplace(once, canonical, rendered);
    if Mentions(lines, canonical) {
      ReplacedTwice(Unread, path, first, lines, rendered);
    } else {
      ReplacedAppended(path, first, lines, rendered);
    }
  }

  lemma NothingFollows()
    ensures FromNextHeader([]) == [] && forall canonical: string :: !Mentions([], canonical)
  {
  }

  lemma BlankUnmentioned(path: Path)
    ensures Strip("") != Canonical(path)
  {
  }

  lemma OnceMentions(path: Path, values: Values, lines: seq<string>)
    requires BarePath(path)
    ensures Mentions(Edited(lines, Canonical(path), Rendered(path, values)), Canonical(path))
  {
    CanonicalReads(path);
    var canonical, rendered := Canonical(path), Rendered(path, values);
    assert rendered[0] == canonical;
    hide Strip, Canonical, Rendered, Replaced;
    if Mentions(lines, canonical) {
      var k := ReplacedMentions(lines, canonical, rendered);
      MentionsAt(Replaced(lines, canonical, rendered), k, canonical);
    } else {
      MentionsAt(Appended(lines, rendered), |Appended(lines, rendered)| - |rendered|, canonical);
    }
  }

  lemma AlikeCandidates(a: seq<string>, b: seq<string>)
    requires Alike(a, b)
    ensures CandidateText(a) == CandidateText(b)
  {
    RstripJoin(a);
    RstripJoin(b);
  }

  /** A second edit of a section overwrites the first one byte for byte. */
  lemma SecondEditOverwrites(text: Option<string>, path: Path, first: Values, second: Values)
    requires Editable(text, path) && Clean(path, first)
    ensures EditText(Some(EditText(text, path, first)), path, second) == EditText(text, path, second)
  {
    hide LfOnly, Edited, Canonical, Rendered, CandidateText, Lines, Alike;
    ExistingReads(text);
    EditTextSplits(text, path, first);
    EditedTwice(path, first, second, Existing(text));
    AlikeCandidates(Edited(TrimLines(Edited(Existing(text), Canonical(path), Rendered(path, first))), Canonical(path), Rendered(path, second)),
                    Edited(Existing(text), Canonical(path), Rendered(path, second)));
  }
}
