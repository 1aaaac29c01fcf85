/** The line grammar of the configuration files: table headers, one `key = value` a line, comments, blanks. */
module TomlLine {
  import opened Wrappers
  import opened PyText
  import opened TomlScalar

  type Path = seq<string>

  datatype Line = Blank | Header(path: Path) | Pair(key: string, value: Value) | Bad

  predicate IsBareChar(c: char) {
    'a' <= c <= 'z' || 'A' <= c <= 'Z' || IsDigit(c) || c == '_' || c == '-'
  }

  predicate IsBareKey(s: string) {
    s != "" && forall k | 0 <= k < |s| :: IsBareChar(s[k])
  }

  function BareRun(s: string): (k: nat)
    ensures k <= |s|
  {
    if s != "" && IsBareChar(s[0]) then 1 + BareRun(s[1..]) else 0
  }

  /** Position of the first `c`, or the length of the text. */
  function Find(s: string, c: char): (k: nat)
    ensures k <= |s| && (k < |s| ==> s[k] == c) && forall j | 0 <= j < k :: s[j] != c
  {
    if s == "" || s[0] == c then 0 else 1 + Find(s[1..], c)
  }

  function SplitDots(s: string): (parts: seq<string>)
    ensures parts != []
    decreases |s|
  {
    var k := Find(s, '.');
    if k == |s| then [s] else [s[..k]] + SplitDots(s[k + 1..])
  }

  function JoinDots(parts: seq<string>): string {
    if parts == [] then "" else if |parts| == 1 then parts[0] else parts[0] + "." + JoinDots(parts[1..])
  }

  function TrimBlank(s: string): string {
    var t := SkipBlank(s);
    TrimBlankEnd(t)
  }

  function TrimBlankEnd(s: string): string {
    if s != "" && IsBlank(s[|s| - 1]) then TrimBlankEnd(s[..|s| - 1]) else s
  }

  /** One component of a table header: a bare key, or a bare key in either kind of quotes. */
  function HeaderPart(s: string): Option<string> {
    var t := TrimBlank(s);
    if IsBareKey(t) then Some(t)
    else if |t| > 2 && t[0] == t[|t| - 1] && (t[0] == '\"' || t[0] == '\'') && IsBareKey(t[1..|t| - 1])
    then Some(t[1..|t| - 1])
    else None
  }

  function HeaderPath(parts: seq<string>): Option<Path> {
    if parts == [] then Some([])
    else match (HeaderPart(parts[0]), HeaderPath(parts[1..]))
      case (Some(part), Some(rest)) => Some([part] + rest)
      case _ => None
  }

  /** Only blanks and a comment may follow on the line. */
  predicate IsTail(s: string) {
    var t := SkipBlank(s);
    t == "" || (t[0] == '#' && forall k | 0 <= k < |t| :: !IsControl(t[k]) || t[k] == '\t')
  }

  /** A line that starts with an opening bracket. */
  function ReadHeader(s: string): Line
    requires s != ""
  {
    var k := Find(s, ']');
    if k == 0 || k == |s| || !IsTail(s[k + 1..]) then Bad
    else match HeaderPath(SplitDots(s[1..k]))
      case None => Bad
      case Some(path) => Header(path)
  }

  /** A line that starts with a bare key. */
  function ReadPair(s: string): Line {
    var k := BareRun(s);
    var t := SkipBlank(s[k..]);
    if k == 0 || t == "" || t[0] != '=' then Bad
    else match ReadValue(SkipBlank(t[1..]))
      case None => Bad
      case Some((value, rest)) => if IsTail(rest) then Pair(s[..k], value) else Bad
  }

  /** A line without its leading blanks. */
  function ReadUnindented(s: string): Line {
    if IsTail(s) then Blank
    else if s[0] == '[' then ReadHeader(s)
    else ReadPair(s)
  }

  function ReadLine(line: string): Line {
    ReadUnindented(SkipBlank(line))
  }

  // ---------------------------------------------------------------------------------------------
  // Documents
  // ---------------------------------------------------------------------------------------------

  type Table = map<string, Value>

  type Doc = map<Path, Table>

  /** The tables read so far, and the one that the next pair belongs to. */
  datatype Reading = Reading(doc: Doc, current: Option<Path>)

  const Unread := Reading(map[], None)

  /** A table may be opened once and a key set once; a pair before any table is not a section's. */
  function Take(r: Reading, line: Line): Option<Reading> {
    match line
    case Blank => Some(r)
    case Header(path) => if path in r.doc then None else Some(Reading(r.doc[path := map[]], Some(path)))
    case Pair(key, value) =>
      (match r.current
       case None => None
       case Some(path) =>
         if path !in r.doc || key in r.doc[path] then None
         else Some(Reading(r.doc[path := r.doc[path][key := value]], r.current)))
    case Bad => None
  }

  function Fold(r: Reading, lines: seq<string>): Option<Reading>
    decreases |lines|
  {
    if lines == [] then Some(r)
    else match Take(r, ReadLine(lines[0]))
      case None => None
      case Some(next) => Fold(next, lines[1..])
  }

  /** TOML ends lines at line feeds alone. */
  function TomlLines(text: string): seq<string>
    decreases |text|
  {
    var k := Find(text, '\n');
    if k == |text| then [text] else [text[..k]] + TomlLines(text[k + 1..])
  }

  function ReadDoc(text: string): Option<Doc> {
    match Fold(Unread, TomlLines(text))
    case None => None
    case Some(r) => Some(r.doc)
  }

  /** The path a raw line opens a table for, by the editor's own test: strip, then parse the line alone. */
  function TableHeader(raw: string): Option<Path> {
    var s := Strip(raw);
    if s == "" || s[0] != '[' then None
    else match ReadLine(s)
      case Header(path) => Some(path)
      case _ => None
  }

  // ---------------------------------------------------------------------------------------------
  // White space around a line does not matter
  // ---------------------------------------------------------------------------------------------

  lemma {:induction false} ReadBasicEnds(s: string)
    requires ReadBasic(s).Some?
    ensures var n := |s| - |ReadBasic(s).value.1|;
            n > 0 && ReadBasic(s).value.1 == s[n..] && s[n - 1] == '\"'
    decreases |s|
  {
    if s[0] != '\"' {
      hide ReadChar;
      ReadBasicEnds(s[ReadChar(s).value.1..]);
    }
  }

  lemma {:induction false} SkipBlankEnds(s: string)
    ensures SkipBlank(s) == s[|s| - |SkipBlank(s)|..]
    ensures forall j | 0 <= j < |s| - |SkipBlank(s)| :: IsBlank(s[j])
    ensures SkipBlank(s) != "" ==> !IsBlank(SkipBlank(s)[0])
    ensures SkipBlank(SkipBlank(s)) == SkipBlank(s)
    decreases |s|
  {
    if s != "" && IsBlank(s[0]) {
      SkipBlankEnds(s[1..]);
      var n := |s| - |SkipBlank(s)|;
      assert forall j | 0 <= j < n :: j == 0 || s[j] == s[1..][j - 1];
    }
  }

  lemma {:induction false} ReadItemsEnds(s: string)
    requires ReadItems(s).Some?
    ensures var n := |s| - |ReadItems(s).value.1|;
            n > 0 && ReadItems(s).value.1 == s[n..] && s[n - 1] == ']'
    decreases |s|
  {
    hide ReadBasic;
    var t := SkipBlank(s);
    SkipBlankEnds(s);
    if t[0] != ']' {
      ReadBasicEnds(t[1..]);
      var rest := ReadBasic(t[1..]).value.1;
      SkipBlankEnds(rest);
      if SkipBlank(rest)[0] != ']' {
        ReadItemsEnds(SkipBlank(rest)[1..]);
      }
    }
  }

  lemma {:induction false} NumberRunEnds(s: string)
    ensures forall j | 0 <= j < NumberRun(s) :: IsNumberChar(s[j])
    decreases |s|
  {
    if s != "" && IsNumberChar(s[0]) {
      NumberRunEnds(s[1..]);
      assert forall j | 0 <= j < NumberRun(s) :: j == 0 || s[j] == s[1..][j - 1];
    }
  }

  /** A value is followed by the rest of the line and never ends in white space. */
  lemma ReadValueEnds(s: string)
    requires ReadValue(s).Some?
    ensures var n := |s| - |ReadValue(s).value.1|;
            n > 0 && ReadValue(s).value.1 == s[n..] && !IsSpace(s[n - 1])
  {
    hide ReadBasic, ReadItems, IsInteger, IsFloatToken, IntegerValue;
    if "true" <= s {
      assert s[..4] == "true" && s[3] == 'e';
    } else if "false" <= s {
      assert s[..5] == "false" && s[4] == 'e';
    } else if s[0] == '\"' {
      ReadBasicEnds(s[1..]);
    } else if s[0] == '[' {
      ReadItemsEnds(s[1..]);
    } else {
      NumberRunEnds(s);
      assert IsNumberChar(s[NumberRun(s) - 1]);
    }
  }

  lemma TailCut(s: string, k: nat)
    requires IsTail(s) && k <= |s| && AllSpace(s[|s| - k..])
    ensures IsTail(Cut(s, k))
  {
    SkipBlankEnds(s);
    var t := SkipBlank(s);
    if k <= |t| {
      SkipBlankLocal(s, k);
      if k == |t| {
        SkipBlankAll(Cut(s, k));
      }
    } else {
      SkipBlankAll(Cut(s, k));
    }
  }

  lemma {:induction false} SkipBlankAll(s: string)
    requires forall j | 0 <= j < |s| :: IsBlank(s[j])
    ensures SkipBlank(s) == ""
    decreases |s|
  {
    if s != "" {
      SkipBlankAll(s[1..]);
    }
  }

  lemma FindFirst(s: string, c: char, k: nat)
    requires k < |s| && s[k] == c && forall j | 0 <= j < k :: s[j] != c
    ensures Find(s, c) == k
  {
  }

  lemma SpacesFromHere(s: string, k: nat)
    requires k <= |s| && AllSpace(s[|s| - k..])
    ensures forall j | |s| - k <= j < |s| :: IsSpace(s[j])
  {
    forall j | |s| - k <= j < |s|
      ensures IsSpace(s[j])
    {
      assert s[|s| - k..][j - (|s| - k)] == s[j];
    }
  }

  lemma ReadHeaderCut(s: string, k: nat)
    requires s != "" && k <= |s| && AllSpace(s[|s| - k..]) && ReadHeader(s) != Bad
    ensures k < |s| && ReadHeader(Cut(s, k)) == ReadHeader(s)
  {
    hide HeaderPath, SplitDots, IsTail;
    var n := Find(s, ']');
    SpacesFromHere(s, k);
    assert n < |s| - k;
    var t := Cut(s, k);
    FindFirst(t, ']', n);
    assert t[1..n] == s[1..n] && t[n + 1..] == Cut(s[n + 1..], k);
    assert s[n + 1..][|s[n + 1..]| - k..] == s[|s| - k..];
    TailCut(s[n + 1..], k);
  }

  lemma {:induction false} BareRunCut(s: string, k: nat)
    requires k <= |s| - BareRun(s)
    ensures BareRun(Cut(s, k)) == BareRun(s)
    decreases |s|
  {
    if s != "" && IsBareChar(s[0]) {
      BareRunCut(s[1..], k);
      assert Cut(s, k)[1..] == Cut(s[1..], k);
    }
  }

  lemma SkipBlankCut(s: string, k: nat)
    requires k <= |s|
    ensures SkipBlank(Cut(s, k)) == if k <= |SkipBlank(s)| then Cut(SkipBlank(s), k) else ""
  {
    SkipBlankEnds(s);
    if k < |SkipBlank(s)| {
      SkipBlankLocal(s, k);
    } else {
      SkipBlankAll(Cut(s, k));
    }
  }

  lemma PairValueCut(s: string, k: nat)
    requires ReadValue(SkipBlank(s)).Some? && k <= |ReadValue(SkipBlank(s)).value.1|
    ensures var (value, rest) := ReadValue(SkipBlank(s)).value;
            k <= |s| && ReadValue(SkipBlank(Cut(s, k))) == Some((value, Cut(rest, k)))
  {
    hide ReadValue;
    SkipBlankCut(s, k);
    ReadValueLocal(SkipBlank(s), k);
  }

  /** What follows the value of a pair, as a suffix of the line. */
  function PairRest(s: string): string
    requires ReadPair(s) != Bad
  {
    ReadValue(SkipBlank(SkipBlank(s[BareRun(s)..])[1..])).value.1
  }

  lemma PairRestEnds(s: string)
    requires ReadPair(s) != Bad
    ensures var rest := PairRest(s);
            |rest| < |s| && rest == s[|s| - |rest|..] && !IsSpace(s[|s| - |rest| - 1])
  {
    hide ReadValue, IsTail;
    var n := BareRun(s);
    var t := SkipBlank(s[n..]);
    SkipBlankEnds(s[n..]);
    SkipBlankEnds(t[1..]);
    ReadValueEnds(SkipBlank(t[1..]));
  }

  lemma ReadPairCut(s: string, k: nat)
    requires k <= |s| && AllSpace(s[|s| - k..]) && ReadPair(s) != Bad
    ensures k < |s| && ReadPair(Cut(s, k)) == ReadPair(s)
  {
    PairRestEnds(s);
    var rest := PairRest(s);
    SpacesFromHere(s, k);
    assert k <= |rest| && rest[|rest| - k..] == s[|s| - k..];
    TailCut(rest, k);
    PairPartsCut(s, k);
    hide ReadValue, IsTail, AllSpace, IsSpace, BareRun, SkipBlank;
  }

  lemma PairPartsCut(s: string, k: nat)
    requires ReadPair(s) != Bad && k <= |PairRest(s)| < |s|
    ensures var c, n := Cut(s, k), BareRun(s);
            && BareRun(c) == n && c[..n] == s[..n]
            && var t := SkipBlank(c[n..]);
            && t != "" && t[0] == '='
            && ReadValue(SkipBlank(t[1..])) ==
               Some((ReadValue(SkipBlank(SkipBlank(s[n..])[1..])).value.0, Cut(PairRest(s), k)))
  {
    hide ReadValue, IsTail;
    var n := BareRun(s);
    var t := SkipBlank(s[n..]);
    SkipBlankEnds(s[n..]);
    PairValueCut(t[1..], k);
    SkipBlankCut(s[n..], k);
    BareRunCut(s, k);
    assert Cut(s, k)[n..] == Cut(s[n..], k) && Cut(t, k)[1..] == Cut(t[1..], k) && Cut(s, k)[..n] == s[..n];
  }

  /** A line reads the same without the white space at its end. */
  lemma ReadLineRstrip(line: string)
    requires ReadLine(line) != Bad
    ensures ReadLine(Rstrip(line)) == ReadLine(line)
  {
    hide ReadLine, Rstrip, AllSpace, IsSpace;
    RstripParts(line);
    var k := |line| - |Rstrip(line)|;
    assert Rstrip(line) == Cut(line, k);
    ReadLineCut(line, k);
  }

  lemma ReadLineCut(line: string, k: nat)
    requires k <= |line| && AllSpace(line[|line| - k..]) && ReadLine(line) != Bad
    ensures ReadLine(Cut(line, k)) == ReadLine(line)
  {
    hide ReadHeader, ReadPair, IsTail, SkipBlank, AllSpace, IsSpace;
    var s := SkipBlank(line);
    SkipBlankEnds(line);
    SkipBlankCut(line, k);
    if k <= |s| {
      assert s[|s| - k..] == line[|line| - k..];
      UnindentedCut(s, k);
    } else {
      SpacesAreBlank(s, line, k);
    }
  }

  lemma UnindentedCut(s: string, k: nat)
    requires k <= |s| && AllSpace(s[|s| - k..]) && ReadUnindented(s) != Bad
    ensures ReadUnindented(Cut(s, k)) == ReadUnindented(s)
    ensures IsTail("")
  {
    hide ReadHeader, ReadPair, IsTail, SkipBlank, AllSpace, IsSpace;
    NothingIsTail();
    if IsTail(s) {
      TailCut(s, k);
    } else if s[0] == '[' {
      ReadHeaderCut(s, k);
      BracketIsNoTail(Cut(s, k));
    } else {
      ReadPairCut(s, k);
      BareIsNoTail(Cut(s, k));
    }
  }

  lemma NothingIsTail()
    ensures IsTail("")
  {
  }

  lemma BracketIsNoTail(s: string)
    requires s != "" && s[0] == '['
    ensures !IsTail(s)
  {
  }

  lemma BareIsNoTail(s: string)
    requires ReadPair(s) != Bad
    ensures !IsTail(s)
  {
    assert BareRun(s) > 0;
  }

  /** Nothing but white space: such a line can only be blank. */
  lemma SpacesAreBlank(s: string, line: string, k: nat)
    requires s == SkipBlank(line) && k <= |line| && |s| < k && AllSpace(line[|line| - k..]) && ReadLine(line) != Bad
    ensures ReadLine(line) == Blank && IsTail("")
  {
    hide ReadLine;
    NothingIsBlank(line);
    SkipBlankEnds(line);
    SpacesFromHere(line, k);
    if s != "" {
      SpaceIsBad(line);
    }
  }

  lemma NothingIsBlank(line: string)
    ensures SkipBlank(line) == "" ==> ReadLine(line) == Blank
    ensures IsTail("")
  {
  }

  lemma SpaceIsBad(line: string)
    requires SkipBlank(line) != "" && IsSpace(SkipBlank(line)[0])
    ensures ReadLine(line) == Bad
  {
    SkipBlankEnds(line);
  }
}
