/** The front matter of hook captures: how it is parsed, and how the fields of a review are written into it. */
module FrontMatter {
  import opened Wrappers
  import opened PyText

  /** The value of a key: its text as it stands behind the colon, or the map of the lines indented below. */
  datatype Field = Raw(text: string) | Nested(fields: map<string, string>)

  type Front = map<string, Field>

  /** Position of the first colon, or the length of the line. */
  function Colon(line: string): (k: nat)
    ensures k <= |line| && (k < |line| ==> line[k] == ':') && forall j | 0 <= j < k :: line[j] != ':'
  {
    if line == "" || line[0] == ':' then 0 else 1 + Colon(line[1..])
  }

  predicate HasColon(line: string) {
    Colon(line) < |line|
  }

  function KeyOf(line: string): string
    requires HasColon(line)
  {
    Strip(line[..Colon(line)])
  }

  function ValueOf(line: string): string
    requires HasColon(line)
  {
    Strip(line[Colon(line) + 1..])
  }

  predicate Ignored(line: string) {
    Strip(line) == "" || Strip(line)[0] == '#'
  }

  predicate Indented(line: string) {
    |line| >= 2 && line[0] == ' ' && line[1] == ' '
  }

  /** What was read so far, and the key whose map indented lines belong to. */
  datatype Reading = Reading(front: Front, current: Option<string>)

  function Read(r: Reading, line: string): Option<Reading> {
    if Ignored(line) then Some(r)
    else if Indented(line) then
      if r.current == None || !HasColon(line) || KeyOf(line) == "" then None
      else
        var map' := if r.current.value in r.front && r.front[r.current.value].Nested? then r.front[r.current.value].fields else map[];
        Some(r.(front := r.front[r.current.value := Nested(map'[KeyOf(line) := ValueOf(line)])]))
    else if !HasColon(line) || KeyOf(line) == "" then None
    else if ValueOf(line) == "" then Some(Reading(r.front[KeyOf(line) := Nested(map[])], Some(KeyOf(line))))
    else Some(Reading(r.front[KeyOf(line) := Raw(ValueOf(line))], None))
  }

  function ReadAll(r: Reading, lines: seq<string>): Option<Reading> {
    if lines == [] then Some(r)
    else match ReadAll(r, lines[..|lines| - 1])
      case None => None
      case Some(m) => Read(m, lines[|lines| - 1])
  }

  predicate IsDelimiter(line: string) {
    Strip(line) == "---"
  }

  /** The lines in front of the first delimiter. */
  function Until(lines: seq<string>): (u: seq<string>)
    ensures u <= lines
  {
    if lines == [] then []
    else
      var n := |lines| - 1;
      if Until(lines[..n]) == lines[..n] && !IsDelimiter(lines[n]) then lines else Until(lines[..n])
  }

  /** What `splitlines` makes of one line of the file: it also ends lines at other characters than line feeds. */
  function Pieces(line: string): seq<string> {
    Splitlines(line + "\n")
  }

  function AllPieces(lines: seq<string>): seq<string> {
    if lines == [] then [] else AllPieces(lines[..|lines| - 1]) + Pieces(lines[|lines| - 1])
  }

  const NOTHING_READ := Reading(map[], None)

  /** The front matter of the lines behind the opening delimiter. */
  function Parse(lines: seq<string>): Option<Front> {
    match ReadAll(NOTHING_READ, Until(AllPieces(lines)))
    case None => None
    case Some(r) => Some(r.front)
  }

  /** The front matter of a text that begins with it. */
  function ParseText(text: string): Option<Front> {
    var lines := Splitlines(text);
    if lines == [] || !IsDelimiter(lines[0]) || Until(lines[1..]) == lines[1..] then None
    else match ReadAll(NOTHING_READ, Until(lines[1..]))
      case None => None
      case Some(r) => Some(r.front)
  }

  // ---------------------------------------------------------------------------------------------
  // Updating
  // ---------------------------------------------------------------------------------------------

  /** New values, already rendered, in the order of the update. */
  type Updates = seq<(string, string)>

  function Line(key: string, value: string): string {
    key + ": " + value
  }

  function Find(ups: Updates, key: string): (r: Option<nat>)
    ensures r.Some? ==> r.value < |ups| && ups[r.value].0 == key
    ensures r.None? ==> forall k | 0 <= k < |ups| :: ups[k].0 != key
  {
    if ups == [] then None
    else if ups[|ups| - 1].0 == key then Some(|ups| - 1)
    else Find(ups[..|ups| - 1], key)
  }

  /** The update that replaces this line, if any: lines that begin with a space are never replaced. */
  function Replacing(ups: Updates, line: string): (r: Option<nat>)
    ensures r.Some? ==> HasColon(line) && r.value < |ups| && ups[r.value].0 == KeyOf(line)
  {
    if !HasColon(line) || (line != "" && line[0] == ' ') then None else Find(ups, KeyOf(line))
  }

  function Replaced(ups: Updates, line: string): string {
    match Replacing(ups, line)
    case None => line
    case Some(k) => Line(ups[k].0, ups[k].1)
  }

  function ReplacedAll(ups: Updates, lines: seq<string>): seq<string> {
    if lines == [] then [] else ReplacedAll(ups, lines[..|lines| - 1]) + [Replaced(ups, lines[|lines| - 1])]
  }

  predicate Seen(ups: Updates, lines: seq<string>, key: string) {
    exists k :: 0 <= k < |lines| && Replacing(ups, lines[k]).Some? && KeyOf(lines[k]) == key
  }

  /** The lines of the first `k` updates that no line was replaced for. */
  function Missing(ups: Updates, lines: seq<string>, k: nat): seq<string>
    requires k <= |ups|
  {
    if k == 0 then []
    else Missing(ups, lines, k - 1) + if Seen(ups, lines, ups[k - 1].0) then [] else [Line(ups[k - 1].0, ups[k - 1].1)]
  }

  /** Every line of an updated key is replaced; the keys without a line follow at the end. */
  function Updated(ups: Updates, lines: seq<string>): seq<string> {
    ReplacedAll(ups, lines) + Missing(ups, lines, |ups|)
  }

  /** Position of the first line that is a delimiter as a whole, or the number of lines. */
  function Boundary(lines: seq<string>): (c: nat)
    ensures c <= |lines| && (forall k | 0 <= k < c :: !IsDelimiter(lines[k])) && (c < |lines| ==> IsDelimiter(lines[c]))
  {
    if lines == [] then 0
    else
      var n := |lines| - 1;
      var c := Boundary(lines[..n]);
      if c < n then c else if IsDelimiter(lines[n]) then n else n + 1
  }

  /** The update of a block, given without its opening and its closing line. */
  function UpdatedBlock(ups: Updates, lines: seq<string>): seq<string> {
    Updated(ups, lines[..Boundary(lines)]) + lines[Boundary(lines)..]
  }

  lemma {:induction false} ReplacedAt(ups: Updates, lines: seq<string>)
    ensures |ReplacedAll(ups, lines)| == |lines|
    ensures forall k | 0 <= k < |lines| :: ReplacedAll(ups, lines)[k] == Replaced(ups, lines[k])
    decreases |lines|
  {
    hide Replaced;
    if lines != [] {
      ReplacedAt(ups, lines[..|lines| - 1]);
    }
  }

  /** The keys for which some line was replaced. */
  ghost predicate Collected(ups: Updates, lines: seq<string>, index: nat, seen: set<string>)
    requires index <= |lines|
  {
    forall key :: key in seen <==> Seen(ups, lines[..index], key)
  }

  lemma CollectOne(ups: Updates, lines: seq<string>, index: nat, seen: set<string>)
    requires index < |lines| && Collected(ups, lines, index, seen)
    ensures Collected(ups, lines, index + 1, if Replacing(ups, lines[index]).Some? then seen + {KeyOf(lines[index])} else seen)
  {
    hide Replacing, KeyOf;
    forall key
      ensures Seen(ups, lines[..index + 1], key) <==>
                Seen(ups, lines[..index], key) || (Replacing(ups, lines[index]).Some? && KeyOf(lines[index]) == key)
    {
      if Seen(ups, lines[..index], key) {
        var k :| 0 <= k < index && Replacing(ups, lines[..index][k]).Some? && KeyOf(lines[..index][k]) == key;
        assert lines[..index + 1][k] == lines[k];
      }
      if Replacing(ups, lines[index]).Some? && KeyOf(lines[index]) == key {
        assert lines[..index + 1][index] == lines[index];
      }
      if Seen(ups, lines[..index + 1], key) {
        var k :| 0 <= k < index + 1 && Replacing(ups, lines[..index + 1][k]).Some? && KeyOf(lines[..index + 1][k]) == key;
        if k < index {
          assert lines[..index][k] == lines[k];
        }
      }
    }
  }

  /** The lines before `index` are replaced, the others not yet. */
  ghost predicate Underway(ups: Updates, lines: seq<string>, index: nat, newLines: seq<string>)
  {
    |newLines| == |lines| && forall k | 0 <= k < |lines| :: newLines[k] == if k < index then Replaced(ups, lines[k]) else lines[k]
  }

  lemma UnderwayOne(ups: Updates, lines: seq<string>, index: nat, newLines: seq<string>)
    requires index < |lines| && Underway(ups, lines, index, newLines)
    ensures newLines[index] == lines[index]
    ensures Replacing(ups, lines[index]) == None ==> Underway(ups, lines, index + 1, newLines)
    ensures Replacing(ups, lines[index]).Some? ==>
              var k := Replacing(ups, lines[index]).value;
              Underway(ups, lines, index + 1, newLines[index := Line(ups[k].0, ups[k].1)])
  {
    hide Replacing, Line;
  }

  lemma UnderwayEnds(ups: Updates, lines: seq<string>, newLines: seq<string>)
    requires Underway(ups, lines, |lines|, newLines)
    ensures newLines == ReplacedAll(ups, lines)
  {
    ReplacedAt(ups, lines);
    hide Replaced;
  }

  /** The first loop of the update: replace in place while collecting the keys seen. */
  method ReplaceLines(lines: seq<string>, ups: Updates) returns (newLines: seq<string>, seen: set<string>)
    ensures newLines == ReplacedAll(ups, lines) && Collected(ups, lines, |lines|, seen)
  {
    hide KeyOf, HasColon, Replacing, Find, Underway, Collected, Line;
    newLines := lines;
    seen := {};
    NothingSeen(ups, lines);
    for index := 0 to |lines|
      invariant |newLines| == |lines| && Underway(ups, lines, index, newLines)
      invariant Collected(ups, lines, index, seen)
    {
      var line := newLines[index];
      UnderwayOne(ups, lines, index, newLines);
      CollectOne(ups, lines, index, seen);
      ReplacingIs(ups, line);
      if !HasColon(line) || (line != "" && line[0] == ' ') {
        continue;
      }
      var key := KeyOf(line);
      var found := Find(ups, key);
      if found.Some? {
        newLines := newLines[index := Line(ups[found.value].0, ups[found.value].1)];
        seen := seen + {key};
      }
    }
    UnderwayEnds(ups, lines, newLines);
  }

  lemma ReplacingIs(ups: Updates, line: string)
    ensures Replacing(ups, line) == if !HasColon(line) || (line != "" && line[0] == ' ') then None else Find(ups, KeyOf(line))
  {
  }

  lemma NothingSeen(ups: Updates, lines: seq<string>)
    ensures Collected(ups, lines, 0, {}) && Underway(ups, lines, 0, lines)
  {
  }

  /** The whole update: afterwards the keys without a line are inserted in front of the closing delimiter. */
  method UpdateFields(lines: seq<string>, ups: Updates) returns (newLines: seq<string>)
    ensures newLines == UpdatedBlock(ups, lines)
  {
    hide Seen, ReplacedAll, IsDelimiter;
    var closing := 0;
    while closing < |lines| && !IsDelimiter(lines[closing])
      invariant closing <= |lines| && forall k | 0 <= k < closing :: !IsDelimiter(lines[k])
    {
      closing := closing + 1;
    }
    assert closing == Boundary(lines);
    var fields, seen := lines[..closing], {};
    newLines, seen := ReplaceLines(fields, ups);
    assert fields[..|fields|] == fields;
    for k := 0 to |ups|
      invariant newLines == ReplacedAll(ups, fields) + Missing(ups, fields, k)
    {
      if ups[k].0 !in seen {
        newLines := newLines + [Line(ups[k].0, ups[k].1)];
      }
    }
    newLines := newLines + lines[closing..];
  }

  // ---------------------------------------------------------------------------------------------
  // What a front matter says
  // ---------------------------------------------------------------------------------------------

  predicate IsField(piece: string) {
    HasColon(piece) && KeyOf(piece) != ""
  }

  /** Neither blank nor a comment, and not indented. */
  predicate IsTop(piece: string) {
    !Ignored(piece) && !Indented(piece)
  }

  predicate Opens(piece: string) {
    HasColon(piece) && ValueOf(piece) == ""
  }

  /** The key whose map the next indented piece would belong to: that of the last piece that is not indented,
      if it has no value of its own. */
  function Owner(pieces: seq<string>): Option<string> {
    if pieces == [] then None
    else
      var last := pieces[|pieces| - 1];
      if !IsTop(last) then Owner(pieces[..|pieces| - 1]) else if Opens(last) then Some(KeyOf(last)) else None
  }

  /** Every piece is blank, a comment or a field, and every indented field stands below its map. */
  predicate Grammar(pieces: seq<string>) {
    pieces == []
    || (var n, last := |pieces| - 1, pieces[|pieces| - 1];
        Grammar(pieces[..n]) && (Ignored(last) || (IsField(last) && (Indented(last) ==> Owner(pieces[..n]).Some?))))
  }

  /** The last word on a key: the value of its last field, or the map of what is indented below it. */
  function Word(pieces: seq<string>, key: string): Option<Field> {
    if pieces == [] then None
    else
      var n, last := |pieces| - 1, pieces[|pieces| - 1];
      var word := Word(pieces[..n], key);
      if Ignored(last) || !HasColon(last) then word
      else if Indented(last) then
        if Owner(pieces[..n]) != Some(key) then word
        else
          var fields := if word.Some? && word.value.Nested? then word.value.fields else map[];
          Some(Nested(fields[KeyOf(last) := ValueOf(last)]))
      else if KeyOf(last) != key then word
      else if Opens(last) then Some(Nested(map[]))
      else Some(Raw(ValueOf(last)))
  }

  function Get(front: Front, key: string): Option<Field> {
    if key in front then Some(front[key]) else None
  }

  /** What the parser has read is what the pieces say. */
  ghost predicate SaidBy(r: Reading, pieces: seq<string>) {
    r.current == Owner(pieces) && forall key :: Get(r.front, key) == Word(pieces, key)
  }

  lemma ReadOne(r: Reading, pieces: seq<string>, piece: string)
    requires SaidBy(r, pieces)
    ensures Read(r, piece).Some? <==> Ignored(piece) || (IsField(piece) && (Indented(piece) ==> Owner(pieces).Some?))
    ensures Read(r, piece).Some? ==> SaidBy(Read(r, piece).value, pieces + [piece])
  {
    hide Ignored, Indented, KeyOf, ValueOf, Colon;
    assert (pieces + [piece])[..|pieces|] == pieces;
    if Read(r, piece).Some? {
      var n := Read(r, piece).value;
      forall key
        ensures Get(n.front, key) == Word(pieces + [piece], key)
      {
        assert Get(r.front, key) == Word(pieces, key);
      }
    }
  }

  /** The parser accepts exactly the grammar, and then its map holds the last word on every key. */
  lemma {:induction false} ReadsTheWords(pieces: seq<string>)
    ensures ReadAll(NOTHING_READ, pieces).Some? <==> Grammar(pieces)
    ensures Grammar(pieces) ==> SaidBy(ReadAll(NOTHING_READ, pieces).value, pieces)
    decreases |pieces|
  {
    if pieces != [] {
      hide SaidBy, Read, Ignored, Indented, IsField, IsTop, Opens;
      var n := |pieces| - 1;
      ReadsTheWords(pieces[..n]);
      assert pieces[..n] + [pieces[n]] == pieces;
      if Grammar(pieces[..n]) {
        ReadOne(ReadAll(NOTHING_READ, pieces[..n]).value, pieces[..n], pieces[n]);
      }
    }
  }

  lemma {:induction false} OwnerIsMap(pieces: seq<string>, key: string)
    requires Owner(pieces) == Some(key)
    ensures Word(pieces, key).Some? && Word(pieces, key).value.Nested?
    decreases |pieces|
  {
    hide Ignored, Indented, KeyOf, ValueOf, Colon;
    var n := |pieces| - 1;
    if !IsTop(pieces[n]) {
      OwnerIsMap(pieces[..n], key);
    }
  }

  // ---------------------------------------------------------------------------------------------
  // What an update does to the pieces
  // ---------------------------------------------------------------------------------------------

  /** A key and a value that stand on one line and are read back as they are. */
  predicate Sound(key: string, value: string) {
    && key != "" && ':' !in key && key[0] != '#' && !IsSpace(key[0]) && !IsSpace(key[|key| - 1])
    && value != "" && !IsSpace(value[0]) && !IsSpace(value[|value| - 1])
    && BreakFree(key) && BreakFree(value)
  }

  ghost predicate SoundUpdates(ups: Updates) {
    && (forall k | 0 <= k < |ups| :: Sound(ups[k].0, ups[k].1))
    && forall a, b | 0 <= a < b < |ups| :: ups[a].0 != ups[b].0
  }

  ghost predicate Named(ups: Updates, key: string) {
    exists k :: 0 <= k < |ups| && ups[k].0 == key
  }

  /** A piece that stays, or a field that is written in the place of the pieces of one line, or of nothing. */
  datatype Change = Kept(text: string) | Written(was: seq<string>, key: string, value: string)

  function Keep(pieces: seq<string>): seq<Change> {
    if pieces == [] then [] else Keep(pieces[..|pieces| - 1]) + [Kept(pieces[|pieces| - 1])]
  }

  function LineChange(ups: Updates, line: string): seq<Change> {
    match Replacing(ups, line)
    case Some(k) => [Written(Pieces(line), ups[k].0, ups[k].1)]
    case None => Keep(Pieces(line))
  }

  function LineChanges(ups: Updates, lines: seq<string>): seq<Change> {
    if lines == [] then [] else LineChanges(ups, lines[..|lines| - 1]) + LineChange(ups, lines[|lines| - 1])
  }

  function Insertions(ups: Updates, lines: seq<string>, k: nat): seq<Change>
    requires k <= |ups|
  {
    if k == 0 then []
    else Insertions(ups, lines, k - 1) + if Seen(ups, lines, ups[k - 1].0) then [] else [Written([], ups[k - 1].0, ups[k - 1].1)]
  }

  /** The update as a whole, from the block as it stands. */
  function Script(ups: Updates, lines: seq<string>): seq<Change> {
    LineChanges(ups, lines) + Insertions(ups, lines, |ups|)
  }

  function Before(t: seq<Change>): seq<string> {
    if t == [] then []
    else Before(t[..|t| - 1]) + match t[|t| - 1] case Kept(text) => [text] case Written(was, _, _) => was
  }

  function After(t: seq<Change>): seq<string> {
    if t == [] then []
    else After(t[..|t| - 1]) + match t[|t| - 1] case Kept(text) => [text] case Written(_, key, value) => [Line(key, value)]
  }

  /** What the update leaves of the block. */
  function Rest(t: seq<Change>): seq<string> {
    if t == [] then []
    else Rest(t[..|t| - 1]) + match t[|t| - 1] case Kept(text) => [text] case Written(_, _, _) => []
  }

  /** The changes in front of the first delimiter that stays. */
  function Reach(t: seq<Change>): (u: seq<Change>)
    ensures u <= t
  {
    if t == [] then []
    else
      var n := |t| - 1;
      if Reach(t[..n]) == t[..n] && !(t[n].Kept? && IsDelimiter(t[n].text)) then t else Reach(t[..n])
  }

  ghost predicate SoundScript(t: seq<Change>) {
    forall k | 0 <= k < |t| && t[k].Written? :: Sound(t[k].key, t[k].value)
  }

  // ---------------------------------------------------------------------------------------------
  // When an update succeeds
  // ---------------------------------------------------------------------------------------------

  /** The last change that is not indented is a kept one that opens a map. */
  predicate UnderMap(t: seq<Change>) {
    t != []
    && match t[|t| - 1]
       case Written(_, _, _) => false
       case Kept(text) => if IsTop(text) then Opens(text) else UnderMap(t[..|t| - 1])
  }

  /** The last change that is not indented is a written one. */
  predicate UnderWritten(t: seq<Change>) {
    t != []
    && match t[|t| - 1]
       case Written(_, _, _) => true
       case Kept(text) => !IsTop(text) && UnderWritten(t[..|t| - 1])
  }

  /** All that is kept are fields, and what is indented stands below its map still. */
  predicate WellKept(t: seq<Change>) {
    t == []
    || (WellKept(t[..|t| - 1])
        && match t[|t| - 1]
           case Written(_, _, _) => true
           case Kept(text) => Ignored(text) || (IsField(text) && (Indented(text) ==> UnderMap(t[..|t| - 1]))))
  }

  /** A kept indented piece stands below a written line. */
  predicate Orphans(t: seq<Change>) {
    t != []
    && (Orphans(t[..|t| - 1])
        || match t[|t| - 1]
           case Written(_, _, _) => false
           case Kept(text) => !Ignored(text) && Indented(text) && UnderWritten(t[..|t| - 1]))
  }

  /** The value in the last line about a key, kept or written. */
  function Said(t: seq<Change>, key: string): Option<string> {
    if t == [] then None
    else
      match t[|t| - 1]
      case Written(_, k, value) => if k == key then Some(value) else Said(t[..|t| - 1], key)
      case Kept(text) =>
        if IsTop(text) && HasColon(text) && KeyOf(text) == key then Some(ValueOf(text)) else Said(t[..|t| - 1], key)
  }

  /** The last line about every updated key carries the new value. */
  predicate LastWord(ups: Updates, t: seq<Change>) {
    forall k | 0 <= k < |ups| :: Said(t, ups[k].0) == Some(ups[k].1)
  }

  /** The lines that are replaced had no say on any other key. */
  ghost predicate NothingElseSaid(ups: Updates, lines: seq<string>, t: seq<Change>) {
    forall key | !Named(ups, key) :: Word(Rest(t), key) == Word(Until(AllPieces(lines)), key)
  }

  lemma {:induction false} WrittenGrammar(t: seq<Change>)
    requires SoundScript(t)
    ensures Grammar(After(t)) <==> WellKept(t)
    ensures Owner(After(t)).Some? <==> UnderMap(t)
    ensures UnderMap(t) ==> Owner(After(t)) == Owner(Rest(t))
    decreases |t|
  {
    if t != [] {
      hide Sound, Ignored, Indented, KeyOf, ValueOf, Line, Colon;
      var n := |t| - 1;
      WrittenGrammar(t[..n]);
      assert After(t)[..|After(t)| - 1] == After(t[..n]);
      match t[n]
      case Kept(text) =>
        assert Rest(t)[..|Rest(t)| - 1] == Rest(t[..n]);
      case Written(_, key, value) =>
        LineReads(key, value);
        SoundNonempty(key, value);
    }
  }

  lemma {:induction false} WrittenWord(t: seq<Change>, key: string, value: string)
    requires SoundScript(t) && value != ""
    ensures Word(After(t), key) == Some(Raw(value)) <==> Said(t, key) == Some(value)
    decreases |t|
  {
    if t != [] {
      hide Sound, Ignored, Indented, KeyOf, ValueOf, Line, Colon;
      var n := |t| - 1;
      WrittenWord(t[..n], key, value);
      assert After(t)[..|After(t)| - 1] == After(t[..n]);
      match t[n]
      case Kept(text) =>
        if Owner(After(t[..n])) == Some(key) {
          OwnerIsMap(After(t[..n]), key);
        }
      case Written(_, k, v) =>
        LineReads(k, v);
        SoundNonempty(k, v);
    }
  }

  lemma {:induction false} OtherWord(t: seq<Change>, key: string)
    requires SoundScript(t) && WellKept(t) && forall k | 0 <= k < |t| && t[k].Written? :: t[k].key != key
    ensures Word(After(t), key) == Word(Rest(t), key)
    decreases |t|
  {
    if t != [] {
      hide SoundScript, WellKept, Word, After, Rest, UnderMap;
      InitSound(t);
      OtherWord(t[..|t| - 1], key);
      if t[|t| - 1].Kept? {
        KeptWord(t, key);
      } else {
        WrittenElsewhere(t, key);
      }
    }
  }

  lemma InitSound(t: seq<Change>)
    requires t != [] && SoundScript(t) && WellKept(t)
    ensures SoundScript(t[..|t| - 1]) && WellKept(t[..|t| - 1])
  {
    hide Sound, IsField, Ignored, Indented;
  }

  lemma KeptWord(t: seq<Change>, key: string)
    requires t != [] && t[|t| - 1].Kept? && SoundScript(t) && WellKept(t)
    requires Word(After(t[..|t| - 1]), key) == Word(Rest(t[..|t| - 1]), key)
    ensures Word(After(t), key) == Word(Rest(t), key)
  {
    hide Sound, Ignored, Indented, KeyOf, ValueOf, HasColon, Owner;
    var n := |t| - 1;
    WrittenGrammar(t[..n]);
    assert After(t)[..|After(t)| - 1] == After(t[..n]);
    assert Rest(t)[..|Rest(t)| - 1] == Rest(t[..n]);
  }

  lemma WrittenElsewhere(t: seq<Change>, key: string)
    requires t != [] && t[|t| - 1].Written? && t[|t| - 1].key != key && Sound(t[|t| - 1].key, t[|t| - 1].value)
    ensures Word(After(t), key) == Word(After(t[..|t| - 1]), key) && Rest(t) == Rest(t[..|t| - 1])
  {
    hide Sound, Ignored, Indented, KeyOf, ValueOf, HasColon, Owner, Line;
    var n := |t| - 1;
    LineReads(t[n].key, t[n].value);
    SoundNonempty(t[n].key, t[n].value);
    assert After(t)[..|After(t)| - 1] == After(t[..n]);
  }

  // ---------------------------------------------------------------------------------------------
  // From lines to pieces
  // ---------------------------------------------------------------------------------------------

  lemma LineIsPiece(line: string)
    requires BreakFree(line)
    ensures Pieces(line) == [line]
  {
    assert line + "\n" == line + "\n" + "";
    SplitlinesHead(line, "");
    NothingSplit();
  }

  lemma {:induction false} KeepTexts(pieces: seq<string>)
    ensures |Keep(pieces)| == |pieces| && forall k | 0 <= k < |pieces| :: Keep(pieces)[k] == Kept(pieces[k])
    decreases |pieces|
  {
    if pieces != [] {
      KeepTexts(pieces[..|pieces| - 1]);
    }
  }

  lemma {:induction false} AfterConcat(a: seq<Change>, b: seq<Change>)
    ensures After(a + b) == After(a) + After(b) && Before(a + b) == Before(a) + Before(b)
    decreases |b|
  {
    if b == [] {
      assert a + b == a;
    } else {
      var n := |b| - 1;
      assert (a + b)[..|a + b| - 1] == a + b[..n];
      AfterConcat(a, b[..n]);
    }
  }

  lemma {:induction false} AfterKeep(pieces: seq<string>)
    ensures After(Keep(pieces)) == pieces && Before(Keep(pieces)) == pieces
    decreases |pieces|
  {
    if pieces != [] {
      var n := |pieces| - 1;
      AfterKeep(pieces[..n]);
      assert Keep(pieces)[..|Keep(pieces)| - 1] == Keep(pieces[..n]);
      assert pieces[..n] + [pieces[n]] == pieces;
    }
  }

  lemma LineChangeIs(ups: Updates, line: string)
    requires SoundUpdates(ups)
    ensures After(LineChange(ups, line)) == Pieces(Replaced(ups, line))
    ensures Before(LineChange(ups, line)) == Pieces(line)
    ensures SoundScript(LineChange(ups, line))
  {
    hide Replacing, Pieces, Sound, Line, Keep, After, Before;
    match Replacing(ups, line)
    case None =>
      KeepTexts(Pieces(line));
      AfterKeep(Pieces(line));
    case Some(k) =>
      SoundLineIsPiece(ups[k].0, ups[k].1);
      OneWritten(Pieces(line), ups[k].0, ups[k].1);
  }

  lemma OneWritten(was: seq<string>, key: string, value: string)
    ensures After([Written(was, key, value)]) == [Line(key, value)] && Before([Written(was, key, value)]) == was
  {
    hide Line;
    var t := [Written(was, key, value)];
    assert t[..0] == [] && [] + was == was;
  }

  lemma SoundLineIsPiece(key: string, value: string)
    requires Sound(key, value)
    ensures BreakFree(Line(key, value)) && Pieces(Line(key, value)) == [Line(key, value)]
  {
    LineIsPiece(Line(key, value));
  }

  lemma {:induction false} LineChangesAre(ups: Updates, lines: seq<string>)
    requires SoundUpdates(ups)
    ensures After(LineChanges(ups, lines)) == AllPieces(ReplacedAll(ups, lines))
    ensures Before(LineChanges(ups, lines)) == AllPieces(lines)
    ensures SoundScript(LineChanges(ups, lines))
    decreases |lines|
  {
    if lines != [] {
      hide SoundUpdates, Replaced, Pieces, LineChange, Sound;
      var n := |lines| - 1;
      LineChangesAre(ups, lines[..n]);
      LineChangeIs(ups, lines[n]);
      AfterConcat(LineChanges(ups, lines[..n]), LineChange(ups, lines[n]));
      assert ReplacedAll(ups, lines)[..|ReplacedAll(ups, lines)| - 1] == ReplacedAll(ups, lines[..n]);
    }
  }

  lemma {:induction false} PiecesConcat(a: seq<string>, b: seq<string>)
    ensures AllPieces(a + b) == AllPieces(a) + AllPieces(b)
    decreases |b|
  {
    hide Pieces;
    if b == [] {
      assert a + b == a;
    } else {
      var n := |b| - 1;
      assert (a + b)[..|a + b| - 1] == a + b[..n];
      PiecesConcat(a, b[..n]);
    }
  }

  lemma {:induction false} InsertionsAre(ups: Updates, lines: seq<string>, k: nat)
    requires SoundUpdates(ups) && k <= |ups|
    ensures After(Insertions(ups, lines, k)) == AllPieces(Missing(ups, lines, k))
    ensures Before(Insertions(ups, lines, k)) == [] && SoundScript(Insertions(ups, lines, k))
    decreases k
  {
    hide Seen, Pieces, Sound;
    if k > 0 {
      InsertionsAre(ups, lines, k - 1);
      var (key, value) := ups[k - 1];
      if !Seen(ups, lines, key) {
        SoundLineIsPiece(key, value);
        AfterConcat(Insertions(ups, lines, k - 1), [Written([], key, value)]);
        assert [Written([], key, value)][..0] == [] && [Line(key, value)][..0] == [];
        PiecesConcat(Missing(ups, lines, k - 1), [Line(key, value)]);
      } else {
        assert Insertions(ups, lines, k) == Insertions(ups, lines, k - 1) && Missing(ups, lines, k) == Missing(ups, lines, k - 1);
      }
    }
  }

  /** The script describes the block before and after the update. */
  lemma ScriptIs(ups: Updates, lines: seq<string>)
    requires SoundUpdates(ups)
    ensures After(Script(ups, lines)) == AllPieces(Updated(ups, lines))
    ensures Before(Script(ups, lines)) == AllPieces(lines)
    ensures SoundScript(Script(ups, lines))
  {
    hide SoundUpdates, AllPieces, LineChanges, Insertions, ReplacedAll, Missing, Sound, After, Before;
    LineChangesAre(ups, lines);
    InsertionsAre(ups, lines, |ups|);
    AfterConcat(LineChanges(ups, lines), Insertions(ups, lines, |ups|));
    PiecesConcat(ReplacedAll(ups, lines), Missing(ups, lines, |ups|));
  }

  lemma {:induction false} ReachIsUntil(t: seq<Change>)
    requires SoundScript(t)
    ensures After(Reach(t)) == Until(After(t))
    ensures Reach(t) == t <==> Until(After(t)) == After(t)
    decreases |t|
  {
    if t != [] {
      hide Sound, IsDelimiter, Line;
      var n := |t| - 1;
      ReachIsUntil(t[..n]);
      var a := After(t);
      assert a[..|a| - 1] == After(t[..n]);
      if t[n].Written? {
        LineIsField(t[n].key, t[n].value);
      }
      assert |After(Reach(t[..n]))| <= |a| - 1;
      if Reach(t[..n]) != t[..n] {
        assert Reach(t) != t;
      }
    }
  }

  /** A rendered line is neither ignored nor a delimiter. */
  lemma LineIsField(key: string, value: string)
    requires Sound(key, value)
    ensures !Ignored(Line(key, value)) && !IsDelimiter(Line(key, value))
  {
    LineReads(key, value);
    var line := Line(key, value);
    assert line[0] == key[0] && line[|line| - 1] == value[|value| - 1];
    StripSound(line);
    assert line[|key|] == ':' && ':' in line && ':' !in "---";
  }

  lemma StripSound(s: string)
    requires s != "" && !IsSpace(s[0]) && !IsSpace(s[|s| - 1])
    ensures Strip(s) == s && Strip(" " + s) == s
  {
    assert Lstrip(s) == s && Rstrip(s) == s;
    assert (" " + s)[1..] == s;
  }

  /** A rendered line is read back as its key and value. */
  lemma LineReads(key: string, value: string)
    requires Sound(key, value)
    ensures var line := Line(key, value);
            && HasColon(line) && KeyOf(line) == key && ValueOf(line) == value
            && !Ignored(line) && !Indented(line) && line[0] != ' '
  {
    var line := Line(key, value);
    ColonIs(line, |key|);
    assert line[..|key|] == key && line[|key| + 1..] == " " + value;
    StripSound(key);
    StripSound(value);
    assert line[0] == key[0] && line[|line| - 1] == value[|value| - 1];
    StripSound(line);
  }

  lemma ColonIs(line: string, k: nat)
    requires k < |line| && line[k] == ':' && forall j | 0 <= j < k :: line[j] != ':'
    ensures Colon(line) == k
  {
  }

  /** A comment never has the key of an update. */
  lemma CommentKey(line: string)
    requires Ignored(line) && HasColon(line)
    ensures KeyOf(line) == "" || KeyOf(line)[0] == '#'
  {
    var c := Colon(line);
    var key := line[..c];
    LstripParts(line);
    LstripParts(key);
    var n := |line| - |Lstrip(line)|;
    RstripParts(Lstrip(line));
    RstripParts(Lstrip(key));
    if KeyOf(line) != "" {
      var m := |key| - |Lstrip(key)|;
      assert key[m] == KeyOf(line)[0] && !IsSpace(key[m]);
      SameStart(line, key, n, m);
      assert Strip(line) != "" by { ColonIsKept(line); }
      assert Strip(line)[0] == line[n];
    }
  }

  lemma SameStart(line: string, key: string, n: nat, m: nat)
    requires key <= line && m < |key| && n < |line| && !IsSpace(key[m]) && !IsSpace(line[n])
    requires AllSpace(line[..n]) && AllSpace(key[..m])
    ensures m == n
  {
    var w, v := line[..n], key[..m];
    forall j | 0 <= j < n
      ensures IsSpace(line[j])
    {
      assert w[j] == line[j];
    }
    forall j | 0 <= j < m
      ensures IsSpace(line[j])
    {
      assert v[j] == line[j];
    }
  }

  lemma ColonIsKept(line: string)
    requires HasColon(line)
    ensures Strip(line) != ""
  {
    LstripParts(line);
    var n := |line| - |Lstrip(line)|;
    var c := Colon(line);
    var front := line[..n];
    assert c >= n by {
      assert forall j | 0 <= j < n :: IsSpace(line[j]) by {
        assert forall j | 0 <= j < n :: front[j] == line[j];
      }
    }
    RstripEmpty(Lstrip(line));
    assert Lstrip(line)[c - n] == ':';
  }

  lemma UnreplacedLine(ups: Updates, line: string)
    requires SoundUpdates(ups) && (Ignored(line) || Indented(line))
    ensures Replacing(ups, line) == None && Replaced(ups, line) == line
  {
    if Ignored(line) && HasColon(line) {
      CommentKey(line);
      var r := Replacing(ups, line);
      assert forall k | 0 <= k < |ups| :: ups[k].0 != "" && ups[k].0[0] != '#';
    }
  }

  lemma NamedFound(ups: Updates, key: string)
    ensures Named(ups, key) <==> Find(ups, key).Some?
  {
    if Find(ups, key).Some? {
      assert ups[Find(ups, key).value].0 == key;
    }
  }

  // ---------------------------------------------------------------------------------------------
  // The exact conditions
  // ---------------------------------------------------------------------------------------------

  /** The updated keys hold the new values. */
  predicate NewValues(ups: Updates, after: Front) {
    forall k | 0 <= k < |ups| :: ups[k].0 in after && after[ups[k].0] == Raw(ups[k].1)
  }

  /** Every other key is what it was. */
  ghost predicate Leaves(ups: Updates, before: Front, after: Front) {
    forall key | !Named(ups, key) :: Get(after, key) == Get(before, key)
  }

  /** The front matter with exactly the updated keys set. */
  ghost predicate Sets(ups: Updates, before: Front, after: Option<Front>) {
    after.Some? && NewValues(ups, after.value) && Leaves(ups, before, after.value)
  }

  ghost predicate Effective(ups: Updates, lines: seq<string>) {
    var t := Reach(Script(ups, lines));
    WellKept(t) && LastWord(ups, t) && NothingElseSaid(ups, lines, t)
  }

  lemma NewValuesExactly(ups: Updates, t: seq<Change>, after: Front)
    requires SoundUpdates(ups) && SoundScript(t) && forall key :: Get(after, key) == Word(After(t), key)
    ensures NewValues(ups, after) <==> LastWord(ups, t)
  {
    hide SoundScript, Sound, Word, Said, After;
    forall k | 0 <= k < |ups|
      ensures (ups[k].0 in after && after[ups[k].0] == Raw(ups[k].1)) <==> Said(t, ups[k].0) == Some(ups[k].1)
    {
      SoundNonempty(ups[k].0, ups[k].1);
      WrittenWord(t, ups[k].0, ups[k].1);
      assert Get(after, ups[k].0) == Word(After(t), ups[k].0);
    }
  }

  lemma LeavesExactly(ups: Updates, lines: seq<string>, t: seq<Change>, before: Front, after: Front)
    requires SoundScript(t) && WellKept(t) && forall k | 0 <= k < |t| && t[k].Written? :: Named(ups, t[k].key)
    requires forall key :: Get(after, key) == Word(After(t), key)
    requires forall key :: Get(before, key) == Word(Until(AllPieces(lines)), key)
    ensures Leaves(ups, before, after) <==> NothingElseSaid(ups, lines, t)
  {
    hide SoundScript, Word, After, Rest, WellKept, Get, Until, AllPieces, Named;
    forall key | !Named(ups, key)
      ensures Get(after, key) == Word(Rest(t), key)
    {
      OtherWord(t, key);
    }
  }

  lemma {:induction false} LinesWriteNamed(ups: Updates, lines: seq<string>)
    ensures forall k | 0 <= k < |LineChanges(ups, lines)| && LineChanges(ups, lines)[k].Written? ::
              Named(ups, LineChanges(ups, lines)[k].key)
    decreases |lines|
  {
    if lines != [] {
      hide Replacing, Pieces;
      LinesWriteNamed(ups, lines[..|lines| - 1]);
      KeepTexts(Pieces(lines[|lines| - 1]));
    }
  }

  lemma {:induction false} InsertionsWriteNamed(ups: Updates, lines: seq<string>, k: nat)
    requires k <= |ups|
    ensures forall i | 0 <= i < |Insertions(ups, lines, k)| :: Insertions(ups, lines, k)[i].Written? && Named(ups, Insertions(ups, lines, k)[i].key)
    decreases k
  {
    hide Seen;
    if k > 0 {
      InsertionsWriteNamed(ups, lines, k - 1);
      assert Named(ups, ups[k - 1].0);
    }
  }

  lemma ScriptWritesNamed(ups: Updates, lines: seq<string>)
    ensures forall k | 0 <= k < |Reach(Script(ups, lines))| && Reach(Script(ups, lines))[k].Written? ::
              Named(ups, Reach(Script(ups, lines))[k].key)
  {
    hide Named, LineChanges, Insertions, Reach;
    LinesWriteNamed(ups, lines);
    InsertionsWriteNamed(ups, lines, |ups|);
  }

  lemma ReachSound(t: seq<Change>)
    requires SoundScript(t)
    ensures SoundScript(Reach(t))
  {
    hide Sound;
  }

  /** What an update does to a front matter that parses, for every block. The result parses exactly if the kept
      pieces do; then the updated keys hold the new values exactly if they have the last word, and every other key
      stays exactly if no replaced line had a say on it. */
  lemma UpdateExact(ups: Updates, lines: seq<string>)
    requires SoundUpdates(ups) && Parse(lines).Some?
    ensures var t, after := Reach(Script(ups, lines)), Parse(Updated(ups, lines));
            && (after.Some? <==> WellKept(t))
            && (after.Some? ==> (NewValues(ups, after.value) <==> LastWord(ups, t)))
            && (after.Some? ==> (Leaves(ups, Parse(lines).value, after.value) <==> NothingElseSaid(ups, lines, t)))
    ensures Sets(ups, Parse(lines).value, Parse(Updated(ups, lines))) <==> Effective(ups, lines)
  {
    hide SoundUpdates, SoundScript, Script, After, NewValues, Leaves, LastWord, NothingElseSaid, Named, Get, Word, Grammar, WellKept,
         ReadAll, Until, AllPieces, Reach, Updated;
    var s := Script(ups, lines);
    var t := Reach(s);
    ScriptIs(ups, lines);
    ReachIsUntil(s);
    ReachSound(s);
    WrittenGrammar(t);
    ScriptWritesNamed(ups, lines);
    ReadsTheWords(Until(AllPieces(lines)));
    ReadsTheWords(After(t));
    if WellKept(t) {
      NewValuesExactly(ups, t, Parse(Updated(ups, lines)).value);
      LeavesExactly(ups, lines, t, Parse(lines).value, Parse(Updated(ups, lines)).value);
    }
  }

  /** No line to be replaced holds another character that ends a line. */
  ghost predicate Unbroken(ups: Updates, lines: seq<string>) {
    forall k | 0 <= k < |lines| && Replacing(ups, lines[k]).Some? :: BreakFree(lines[k])
  }

  /** What is replaced are single fields of the written keys. */
  ghost predicate Singles(t: seq<Change>) {
    forall k | 0 <= k < |t| && t[k].Written? && t[k].was != [] :: Single(t[k])
  }

  predicate Single(c: Change)
    requires c.Written?
  {
    && |c.was| == 1
    && IsTop(c.was[0]) && HasColon(c.was[0]) && KeyOf(c.was[0]) == c.key && !IsDelimiter(c.was[0])
  }

  /** What was kept is read alike with and without what was replaced. */
  lemma {:induction false} SinglesRead(t: seq<Change>)
    requires Singles(t) && Grammar(Before(t))
    ensures WellKept(t) <==> !Orphans(t)
    ensures !UnderWritten(t) ==> Owner(Before(t)) == Owner(Rest(t)) && (Owner(Before(t)).Some? <==> UnderMap(t))
    ensures UnderWritten(t) ==> !UnderMap(t)
    decreases |t|
  {
    if t != [] {
      hide Singles, Grammar, Owner, WellKept, Orphans, UnderWritten, UnderMap, Before, Rest;
      var n := |t| - 1;
      if t[n].Kept? {
        KeptEnds(t);
        SinglesRead(t[..n]);
        KeptReads(t);
      } else {
        SingleEnds(t);
        SinglesRead(t[..n]);
        WrittenReads(t);
      }
    } else {
      assert Owner(Before(t)) == None;
    }
  }

  lemma KeptEnds(t: seq<Change>)
    requires Singles(t) && Grammar(Before(t)) && t != [] && t[|t| - 1].Kept?
    ensures Singles(t[..|t| - 1]) && Grammar(Before(t[..|t| - 1]))
  {
    hide Ignored, Indented, IsField, Single;
    OnePieceMore(Before(t[..|t| - 1]), t[|t| - 1].text);
  }

  lemma KeptReads(t: seq<Change>)
    requires t != [] && t[|t| - 1].Kept? && Grammar(Before(t))
    requires var s := t[..|t| - 1];
             && (WellKept(s) <==> !Orphans(s))
             && (!UnderWritten(s) ==> Owner(Before(s)) == Owner(Rest(s)) && (Owner(Before(s)).Some? <==> UnderMap(s)))
             && (UnderWritten(s) ==> !UnderMap(s))
    ensures WellKept(t) <==> !Orphans(t)
    ensures !UnderWritten(t) ==> Owner(Before(t)) == Owner(Rest(t)) && (Owner(Before(t)).Some? <==> UnderMap(t))
    ensures UnderWritten(t) ==> !UnderMap(t)
  {
    hide Ignored, Indented, IsField, Opens, KeyOf, Grammar, Owner;
    var n := |t| - 1;
    OnePieceMore(Before(t[..n]), t[n].text);
    OnePieceMore(Rest(t[..n]), t[n].text);
  }

  lemma WrittenReads(t: seq<Change>)
    requires t != [] && t[|t| - 1].Written? && (WellKept(t[..|t| - 1]) <==> !Orphans(t[..|t| - 1]))
    ensures (WellKept(t) <==> !Orphans(t)) && UnderWritten(t) && !UnderMap(t)
  {
  }

  lemma OnePieceMore(pieces: seq<string>, last: string)
    ensures Grammar(pieces + [last]) <==>
              Grammar(pieces) && (Ignored(last) || (IsField(last) && (Indented(last) ==> Owner(pieces).Some?)))
    ensures Owner(pieces + [last]) == if !IsTop(last) then Owner(pieces) else if Opens(last) then Some(KeyOf(last)) else None
  {
    hide IsTop, Opens, IsField, Ignored, Indented, KeyOf;
    assert (pieces + [last])[..|pieces|] == pieces;
  }

  lemma SingleEnds(t: seq<Change>)
    requires Singles(t) && Grammar(Before(t)) && t != [] && t[|t| - 1].Written?
    ensures Singles(t[..|t| - 1]) && Grammar(Before(t[..|t| - 1]))
  {
    hide IsField, Ignored, Owner, Indented, IsDelimiter;
    var last := t[|t| - 1];
    if last.was == [] {
      assert Before(t) == Before(t[..|t| - 1]);
    } else {
      assert Single(last);
      assert last.was == [last.was[0]];
      OnePieceMore(Before(t[..|t| - 1]), last.was[0]);
    }
  }

  lemma {:induction false} SinglesSay(t: seq<Change>, key: string)
    requires Singles(t) && Grammar(Before(t)) && !Orphans(t) && forall k | 0 <= k < |t| && t[k].Written? :: t[k].key != key
    ensures Word(Before(t), key) == Word(Rest(t), key)
    decreases |t|
  {
    if t != [] {
      hide Ignored, Indented, KeyOf, ValueOf, Colon, IsDelimiter;
      var n := |t| - 1;
      var b := Before(t);
      match t[n]
      case Kept(text) =>
        assert b[..|b| - 1] == Before(t[..n]) && Rest(t)[..|Rest(t)| - 1] == Rest(t[..n]);
        SinglesRead(t[..n]);
        SinglesSay(t[..n], key);
      case Written(was, k, value) =>
        assert Rest(t) == Rest(t[..n]);
        if was == [] {
          assert b == Before(t[..n]);
        } else {
          assert b[..|b| - 1] == Before(t[..n]);
        }
        SinglesSay(t[..n], key);
    }
  }

  lemma ColonIsPart(line: string)
    requires HasColon(line)
    ensures !IsDelimiter(line)
  {
    var c := Colon(line);
    LstripParts(line);
    FirstIsKept(line, c);
    var s := Lstrip(line);
    var d := c - (|line| - |s|);
    assert s[d] == ':';
    LastIsKept(s, d);
    RstripParts(s);
    assert Strip(line)[d] == ':' && "---"[..] == "---" && ':' !in "---";
  }

  lemma ReplacedIsSingle(ups: Updates, line: string)
    requires SoundUpdates(ups) && (Replacing(ups, line).Some? ==> BreakFree(line))
    ensures Singles(LineChange(ups, line))
  {
    hide Sound, Pieces, Colon, KeyOf, Ignored, Indented, Find;
    KeepTexts(Pieces(line));
    if Replacing(ups, line).Some? {
      LineIsPiece(line);
      ColonIsPart(line);
      if Ignored(line) || Indented(line) {
        UnreplacedLine(ups, line);
      }
    }
  }

  lemma NoSingles()
    ensures Singles([])
  {
  }

  lemma SinglesConcat(a: seq<Change>, b: seq<Change>)
    requires Singles(a) && Singles(b)
    ensures Singles(a + b)
  {
    hide Single;
  }

  lemma UnbrokenParts(ups: Updates, lines: seq<string>)
    requires lines != [] && Unbroken(ups, lines)
    ensures Unbroken(ups, lines[..|lines| - 1])
    ensures Replacing(ups, lines[|lines| - 1]).Some? ==> BreakFree(lines[|lines| - 1])
  {
    hide Replacing, BreakFree;
  }

  lemma {:induction false} UnbrokenIsSingle(ups: Updates, lines: seq<string>)
    requires SoundUpdates(ups) && Unbroken(ups, lines)
    ensures Singles(LineChanges(ups, lines))
    decreases |lines|
  {
    if lines != [] {
      hide SoundUpdates, LineChange, Singles, Unbroken;
      var n := |lines| - 1;
      UnbrokenParts(ups, lines);
      UnbrokenIsSingle(ups, lines[..n]);
      ReplacedIsSingle(ups, lines[n]);
      SinglesConcat(LineChanges(ups, lines[..n]), LineChange(ups, lines[n]));
    } else {
      NoSingles();
    }
  }

  lemma {:induction false} InsertionsHadNothing(ups: Updates, lines: seq<string>, k: nat)
    requires k <= |ups|
    ensures forall i | 0 <= i < |Insertions(ups, lines, k)| && Insertions(ups, lines, k)[i].Written? :: Insertions(ups, lines, k)[i].was == []
    decreases k
  {
    hide Seen;
    if k > 0 {
      InsertionsHadNothing(ups, lines, k - 1);
    }
  }

  lemma UnbrokenScript(ups: Updates, lines: seq<string>)
    requires SoundUpdates(ups) && Unbroken(ups, lines)
    ensures Singles(Script(ups, lines)) && Singles(Reach(Script(ups, lines)))
  {
    hide SoundUpdates, Unbroken, LineChanges, Insertions, Single, Reach;
    UnbrokenIsSingle(ups, lines);
    InsertionsHadNothing(ups, lines, |ups|);
  }

  lemma {:induction false} ReachOfSingles(t: seq<Change>)
    requires Singles(t)
    ensures Before(Reach(t)) == Until(Before(t))
    ensures Reach(t) == t <==> Until(Before(t)) == Before(t)
    decreases |t|
  {
    if t != [] {
      hide IsDelimiter, IsTop, Colon, KeyOf;
      var n := |t| - 1;
      ReachOfSingles(t[..n]);
      var b := Before(t);
      if t[n].Written? && t[n].was == [] {
        assert b == Before(t[..n]);
        assert Reach(t[..n]) == t[..n] || Reach(t) != t;
      } else {
        assert b[..|b| - 1] == Before(t[..n]);
      }
    }
  }

  /** For blocks in which no replaced line is broken: an update that parses and sets exactly its keys is one that
      leaves no indented line below a replaced one, and that has the last word on every updated key. */
  lemma UpdateSets(ups: Updates, lines: seq<string>)
    requires SoundUpdates(ups) && Parse(lines).Some? && Unbroken(ups, lines)
    ensures var t := Reach(Script(ups, lines));
            && (Parse(Updated(ups, lines)).Some? <==> !Orphans(t))
            && (Sets(ups, Parse(lines).value, Parse(Updated(ups, lines))) <==> !Orphans(t) && LastWord(ups, t))
  {
    hide SoundUpdates, Script, Before, LastWord, Named, Word, Grammar, WellKept, Orphans, NewValues, Leaves, Singles,
         ReadAll, Until, AllPieces, Reach, Updated, Unbroken;
    var s := Script(ups, lines);
    var t := Reach(s);
    UpdateExact(ups, lines);
    UnbrokenScript(ups, lines);
    ScriptIs(ups, lines);
    ReachOfSingles(s);
    ReadsTheWords(Until(AllPieces(lines)));
    SinglesRead(t);
    ScriptWritesNamed(ups, lines);
    if !Orphans(t) {
      forall key | !Named(ups, key)
        ensures Word(Rest(t), key) == Word(Until(AllPieces(lines)), key)
      {
        SinglesSay(t, key);
      }
    }
  }

  // ---------------------------------------------------------------------------------------------
  // Updates that have no effect
  // ---------------------------------------------------------------------------------------------

  /** The line sets the key to the value. */
  predicate LineSets(line: string, key: string, value: string) {
    !Ignored(line) && !Indented(line) && HasColon(line) && KeyOf(line) == key && ValueOf(line) == value && key != "" && value != ""
  }

  lemma LineTaken(r: Reading, line: string, key: string, value: string)
    requires LineSets(line, key, value)
    ensures Read(r, line) == Some(Reading(r.front[key := Raw(value)], None))
  {
    hide Ignored, Indented, KeyOf, ValueOf;
  }

  /** Lines that are one piece each, and no delimiters. */
  ghost predicate Plain(lines: seq<string>) {
    forall k | 0 <= k < |lines| :: BreakFree(lines[k]) && !IsDelimiter(lines[k])
  }

  lemma {:induction false} PlainPieces(lines: seq<string>)
    requires Plain(lines)
    ensures AllPieces(lines) == lines && Until(lines) == lines
    decreases |lines|
  {
    hide IsDelimiter, BreakFree, Pieces;
    if lines != [] {
      var n := |lines| - 1;
      PlainPieces(lines[..n]);
      LineIsPiece(lines[n]);
      assert lines[..n] + [lines[n]] == lines;
    }
  }

  lemma {:induction false} ReadAppend(r: Reading, a: seq<string>, b: seq<string>)
    ensures ReadAll(r, a + b) == match ReadAll(r, a) case None => None case Some(m) => ReadAll(m, b)
    decreases |b|
  {
    hide Read;
    if b == [] {
      assert a + b == a;
    } else {
      assert (a + b)[..|a + b| - 1] == a + b[..|b| - 1];
      ReadAppend(r, a, b[..|b| - 1]);
    }
  }

  lemma ReadSingle(r: Reading, line: string)
    ensures ReadAll(r, [line]) == Read(r, line)
  {
    hide Read;
    assert [line][..0] == [];
  }

  /** Two lines about one key: the second has the last word. */
  lemma TwoLines(x: string, y: string, key: string, a: string, b: string)
    requires LineSets(x, key, a) && LineSets(y, key, b) && Plain([x, y])
    ensures Parse([x, y]) == Some(map[key := Raw(b)])
  {
    hide Read, LineSets, ReadAll, Until, AllPieces, Plain;
    var one := Reading(map[key := Raw(a)], None);
    PlainPieces([x, y]);
    assert [x] + [y] == [x, y];
    ReadAppend(NOTHING_READ, [x], [y]);
    ReadSingle(NOTHING_READ, x);
    ReadSingle(one, y);
    LineTaken(NOTHING_READ, x, key, a);
    LineTaken(one, y, key, b);
    assert NOTHING_READ.front[key := Raw(a)] == map[key := Raw(a)];
    assert map[key := Raw(a)][key := Raw(b)] == map[key := Raw(b)];
  }

  lemma SoundSets(key: string, value: string)
    requires Sound(key, value)
    ensures LineSets(Line(key, value), key, value) && BreakFree(Line(key, value)) && !IsDelimiter(Line(key, value))
  {
    LineReads(key, value);
    LineIsField(key, value);
    SoundLineIsPiece(key, value);
    SoundNonempty(key, value);
    hide Ignored, Indented, KeyOf, ValueOf, Sound, BreakFree, IsDelimiter;
  }

  lemma SpacedSplits(key: string, value: string)
    requires Sound(key, value)
    ensures var line := " " + Line(key, value); HasColon(line) && KeyOf(line) == key && ValueOf(line) == value
  {
    var line := " " + Line(key, value);
    StripSound(key);
    StripSound(value);
    assert line == " " + key + ":" + (" " + value);
    assert forall j | 1 <= j < |key| + 1 :: line[j] == key[j - 1];
    ColonIs(line, |key| + 1);
    assert line[..|key| + 1] == " " + key && line[|key| + 2..] == " " + value;
  }

  lemma SpacedLineSets(key: string, value: string)
    requires Sound(key, value)
    ensures LineSets(" " + Line(key, value), key, value) && (" " + Line(key, value))[0] == ' '
  {
    SpacedSplits(key, value);
    var inner := Line(key, value);
    assert inner[0] == key[0] && inner[|inner| - 1] == value[|value| - 1];
    StripSound(inner);
    hide Line, KeyOf, ValueOf, Colon, Strip;
    assert (" " + inner)[1] == inner[0];
  }

  lemma SpacedIsPlain(key: string, value: string)
    requires Sound(key, value)
    ensures BreakFree(" " + Line(key, value)) && !IsDelimiter(" " + Line(key, value))
  {
    SpacedSplits(key, value);
    ColonIsPart(" " + Line(key, value));
  }

  /** Of two lines the first is replaced, and the second is not: that is the whole update. */
  lemma OnlyFirst(key: string, value: string, x: string, y: string)
    requires HasColon(x) && KeyOf(x) == key && x[0] != ' ' && Replacing([(key, value)], y) == None
    ensures Updated([(key, value)], [x, y]) == [Line(key, value), y]
  {
    hide HasColon, KeyOf, Line;
    var ups: Updates := [(key, value)];
    assert Find(ups, key) == Some(0);
    ReplacingIs(ups, x);
    hide Replacing, Find;
    ReplacedAt(ups, [x, y]);
    assert ReplacedAll(ups, [x, y]) == [Line(key, value), y];
    assert [x, y][0] == x && Seen(ups, [x, y], key);
    assert Missing(ups, [x, y], 1) == [] + [];
  }

  lemma SpacePasses(ups: Updates, key: string, value: string)
    ensures Replacing(ups, " " + Line(key, value)) == None
  {
    assert (" " + Line(key, value))[0] == ' ';
    ReplacingIs(ups, " " + Line(key, value));
  }

  /** A line that begins with a single space is read like any other, but the update passes over it: it keeps the
      last word on its key. */
  lemma SingleSpaceWins(key: string, a: string, b: string, value: string)
    requires Sound(key, a) && Sound(key, b) && Sound(key, value) && b != value
    ensures var lines, ups := [Line(key, a), " " + Line(key, b)], [(key, value)];
            && Parse(lines) == Some(map[key := Raw(b)])
            && Parse(Updated(ups, lines)) == Some(map[key := Raw(b)])
  {
    hide Sound, Line, Ignored, Indented, KeyOf, ValueOf, HasColon, IsDelimiter, BreakFree, Parse, Updated, LineSets, Replacing;
    SoundSets(key, a);
    SoundSets(key, value);
    SpacedLineSets(key, b);
    SpacedIsPlain(key, b);
    LineReads(key, a);
    SpacePasses([(key, value)], key, b);
    OnlyFirst(key, value, Line(key, a), " " + Line(key, b));
    TwoLines(Line(key, a), " " + Line(key, b), key, a, b);
    TwoLines(Line(key, value), " " + Line(key, b), key, value, b);
  }

  const SEPARATOR: char := '\U{2028}'

  /** A line with a line separator in its value: the update sees one line, the parser two. */
  function Broken(other: string, x: string, key: string, b: string): string {
    Line(other, x) + [SEPARATOR] + Line(key, b)
  }

  lemma BrokenPieces(other: string, x: string, key: string, b: string)
    requires Sound(other, x) && Sound(key, b)
    ensures var line := Broken(other, x, key, b);
            HasColon(line) && KeyOf(line) == other && Pieces(line) == [Line(other, x), Line(key, b)]
  {
    SoundLineIsPiece(other, x);
    SoundLineIsPiece(key, b);
    var line := Broken(other, x, key, b);
    var p := line + "\n";
    var n := |Line(other, x)|;
    assert p[n] == SEPARATOR && p[..n] == Line(other, x) && p[n + 1..] == Line(key, b) + "\n";
    FirstBreakAt(p, n);
    ColonIs(line, |other|);
    assert line[..|other|] == other;
    StripSound(other);
  }

  lemma TwoLinesPieces(p: string, line: string, q: string, r: string)
    requires BreakFree(p) && Pieces(line) == [q, r]
    ensures AllPieces([p, line]) == [p, q, r]
  {
    hide Pieces;
    LineIsPiece(p);
    var lines := [p, line];
    assert lines[..1] == [p] && [p][..0] == [];
    assert AllPieces([p]) == [] + [p];
    assert [p] + [q, r] == [p, q, r];
  }

  lemma ThreeLines(p: string, q: string, r: string, key: string, value: string, other: string, x: string, b: string)
    requires LineSets(p, key, value) && LineSets(q, other, x) && LineSets(r, key, b) && other != key && Plain([p, q, r])
    ensures Until([p, q, r]) == [p, q, r]
    ensures ReadAll(NOTHING_READ, [p, q, r]) == Some(Reading(map[key := Raw(b), other := Raw(x)], None))
  {
    hide Read, LineSets, ReadAll, Until, AllPieces, Plain;
    PlainPieces([p, q, r]);
    var one := Reading(map[key := Raw(value)], None);
    var two := Reading(map[key := Raw(value), other := Raw(x)], None);
    assert [p] + [q] == [p, q] && [p, q] + [r] == [p, q, r];
    ReadAppend(NOTHING_READ, [p, q], [r]);
    ReadAppend(NOTHING_READ, [p], [q]);
    ReadSingle(NOTHING_READ, p);
    ReadSingle(one, q);
    ReadSingle(two, r);
    LineTaken(NOTHING_READ, p, key, value);
    LineTaken(one, q, other, x);
    LineTaken(two, r, key, b);
    assert NOTHING_READ.front[key := Raw(value)] == one.front;
    assert one.front[other := Raw(x)] == two.front;
    assert two.front[key := Raw(b)] == map[key := Raw(b), other := Raw(x)];
  }

  lemma BrokenParses(first: string, value: string, other: string, x: string, key: string, b: string)
    requires Sound(key, value) && Sound(other, x) && Sound(key, b) && other != key && first == Line(key, value)
    ensures Parse([first, Broken(other, x, key, b)]) == Some(map[key := Raw(b), other := Raw(x)])
  {
    hide Sound, Line, Broken, HasColon, KeyOf, IsDelimiter, BreakFree, LineSets, ReadAll, Until, AllPieces, Pieces;
    SoundSets(key, value);
    SoundSets(other, x);
    SoundSets(key, b);
    BrokenPieces(other, x, key, b);
    var p, q, r := first, Line(other, x), Line(key, b);
    TwoLinesPieces(p, Broken(other, x, key, b), q, r);
    ThreeLines(p, q, r, key, value, other, x, b);
  }

  /** So the last word on a key can stand behind a line separator in the line of another key. */
  lemma SeparatorWins(key: string, a: string, other: string, x: string, b: string, value: string)
    requires Sound(key, a) && Sound(key, b) && Sound(key, value) && Sound(other, x) && other != key && b != value
    ensures var lines, ups := [Line(key, a), Broken(other, x, key, b)], [(key, value)];
            && Parse(lines) == Some(map[key := Raw(b), other := Raw(x)])
            && Parse(Updated(ups, lines)) == Parse(lines)
  {
    LineReads(key, a);
    BrokenPieces(other, x, key, b);
    hide Sound, Line, Broken, Ignored, Indented, KeyOf, ValueOf, Colon, Parse, Updated, Pieces;
    var ups: Updates := [(key, value)];
    assert Find(ups, other) == None;
    ReplacingIs(ups, Broken(other, x, key, b));
    OnlyFirst(key, value, Line(key, a), Broken(other, x, key, b));
    BrokenParses(Line(key, a), a, other, x, key, b);
    BrokenParses(Line(key, value), value, other, x, key, b);
  }

  lemma SoundNonempty(key: string, value: string)
    requires Sound(key, value)
    ensures key != "" && value != ""
  {
  }
}
