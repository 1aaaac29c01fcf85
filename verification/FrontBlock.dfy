/** The block at the beginning of a hook capture: which blocks the program accepts, what it reads in them, and what
    is left of them after an update. */
module FrontBlock {
  import opened Wrappers
  import opened PyText
  import opened FrontMatter

  const MAX_HOOK_FRONTMATTER_BYTES: nat := 64 * 1024

  /** The opening line, the lines between and the closing line, without the line feeds and carriage returns at
      their ends, which take `ends` bytes in all. */
  datatype Block = Block(open: string, fields: seq<string>, close: string, ends: nat)

  function LineBytes(lines: seq<string>): nat {
    if lines == [] then 0 else LineBytes(lines[..|lines| - 1]) + Bytes(lines[|lines| - 1])
  }

  function Size(b: Block): nat {
    Bytes(b.open) + LineBytes(b.fields) + Bytes(b.close) + b.ends
  }

  // ---------------------------------------------------------------------------------------------
  // Bytes
  // ---------------------------------------------------------------------------------------------

  /** Characters that `bytes.strip` removes. */
  predicate IsAsciiSpace(c: char) {
    0x09 <= c as int <= 0x0d || c == ' '
  }

  function AsciiLstrip(s: string): string {
    if s != "" && IsAsciiSpace(s[0]) then AsciiLstrip(s[1..]) else s
  }

  function AsciiRstrip(s: string): string {
    if s != "" && IsAsciiSpace(s[|s| - 1]) then AsciiRstrip(s[..|s| - 1]) else s
  }

  function AsciiStrip(s: string): string {
    AsciiRstrip(AsciiLstrip(s))
  }

  predicate IsMarker(line: string) {
    AsciiStrip(line) == "---"
  }

  predicate IsGap(line: string) {
    AsciiStrip(line) == "" || AsciiStrip(line)[0] == '#'
  }

  /** A line of a file without its end. */
  predicate IsPhysical(line: string) {
    '\n' !in line && (line != "" ==> line[|line| - 1] != '\r')
  }

  /** A block as it is read: delimited, with no blank line or comment but perhaps the first, and not too large. */
  predicate IsBlock(b: Block) {
    && IsMarker(b.open) && IsMarker(b.close) && IsPhysical(b.open) && IsPhysical(b.close)
    && (forall k | 0 <= k < |b.fields| ::
          IsPhysical(b.fields[k]) && !IsMarker(b.fields[k]) && (k > 0 ==> !IsGap(b.fields[k])))
    && Size(b) <= MAX_HOOK_FRONTMATTER_BYTES
  }

  /** The front matter of a block, if it is accepted. */
  function BlockFront(b: Block): Option<Front> {
    if IsBlock(b) then ParseText(Join([b.open] + b.fields + [b.close])) else None
  }

  /** The block with its fields updated; every line then ends in one line feed. */
  function Rewritten(ups: Updates, b: Block): Block {
    var fields := UpdatedBlock(ups, b.fields);
    Block(b.open, fields, b.close, |fields| + 2)
  }

  lemma {:induction false} LstripsAgree(s: string)
    ensures Lstrip(AsciiLstrip(s)) == Lstrip(s)
    decreases |s|
  {
    if s != "" && IsAsciiSpace(s[0]) {
      LstripsAgree(s[1..]);
    }
  }

  lemma {:induction false} LstripBefore(s: string, c: char)
    requires IsSpace(c)
    ensures Lstrip(s + [c]) == if AllSpace(s) then "" else Lstrip(s) + [c]
    decreases |s|
  {
    hide IsSpace;
    if s == "" {
      assert s + [c] == [c] && [c][1..] == "";
    } else if IsSpace(s[0]) {
      assert (s + [c])[1..] == s[1..] + [c];
      LstripBefore(s[1..], c);
      assert AllSpace(s) <==> AllSpace(s[1..]) by {
        assert forall k | 1 <= k < |s| :: s[k] == s[1..][k - 1];
      }
    } else {
      assert (s + [c])[0] == s[0];
    }
  }

  lemma StripBefore(s: string, c: char)
    requires IsSpace(c)
    ensures Strip(s + [c]) == Strip(s)
  {
    LstripBefore(s, c);
    LstripEmpty(s);
    if !AllSpace(s) {
      assert (Lstrip(s) + [c])[..|Lstrip(s)|] == Lstrip(s);
    }
  }

  lemma {:induction false} RstripsAgree(s: string)
    ensures Strip(AsciiRstrip(s)) == Strip(s)
    decreases |s|
  {
    hide Strip;
    if s != "" && IsAsciiSpace(s[|s| - 1]) {
      RstripsAgree(s[..|s| - 1]);
      assert s == s[..|s| - 1] + [s[|s| - 1]];
      StripBefore(s[..|s| - 1], s[|s| - 1]);
    }
  }

  lemma StripsAgree(s: string)
    ensures Strip(AsciiStrip(s)) == Strip(s)
  {
    LstripsAgree(s);
    RstripsAgree(AsciiLstrip(s));
  }

  lemma MarkerIsDelimiter(line: string)
    requires IsMarker(line)
    ensures IsDelimiter(line)
  {
    StripsAgree(line);
    assert Strip("---") == "---" by {
      StripSound("---");
    }
  }

  lemma DelimiterIsNoGap(line: string)
    requires IsDelimiter(line)
    ensures !IsGap(line)
  {
    StripsAgree(line);
    var s := AsciiStrip(line);
    assert Strip("") == "";
    if s != "" && s[0] == '#' {
      HashStays(s);
    }
  }

  lemma HashStays(s: string)
    requires s != "" && s[0] == '#'
    ensures Strip(s) != "---"
  {
    assert Lstrip(s) == s;
    LastIsKept(s, 0);
    RstripParts(s);
    assert Strip(s)[0] == '#';
  }

  lemma SoundIsPhysical(key: string, value: string)
    requires Sound(key, value)
    ensures var line := Line(key, value); IsPhysical(line) && !IsMarker(line) && !IsGap(line)
  {
    var line := Line(key, value);
    assert line[0] == key[0] && line[|line| - 1] == value[|value| - 1] && line[|key|] == ':';
    assert AsciiStrip(line) == line;
    assert ':' in line && ':' !in "---";
  }

  // ---------------------------------------------------------------------------------------------
  // The text of a block and its lines
  // ---------------------------------------------------------------------------------------------

  /** Where the line after the break at `k` begins. */
  function Next(s: string, k: nat): (n: nat)
    requires k < |s|
    ensures k < n <= |s|
  {
    if s[k] == '\r' && k + 1 < |s| && s[k + 1] == '\n' then k + 2 else k + 1
  }

  lemma SplitAt(s: string, k: nat)
    requires k < |s| && IsBreak(s[k]) && BreakFree(s[..k])
    ensures Splitlines(s) == [s[..k]] + Splitlines(s[Next(s, k)..])
  {
    FirstBreakAt(s, k);
  }

  /** The first line of a text ends where that of a longer one does. */
  lemma SplitLonger(p: string, s: string, k: nat)
    requires p <= s && k < |p| && IsBreak(p[k]) && BreakFree(p[..k]) && (k + 1 == |p| ==> p[k] == '\n')
    ensures Splitlines(p) == [p[..k]] + Splitlines(p[Next(p, k)..]) && Splitlines(s) == [p[..k]] + Splitlines(s[Next(p, k)..])
  {
    hide IsBreak, BreakFree, Splitlines;
    assert s[..k] == p[..k] && s[k] == p[k];
    SplitAt(p, k);
    SplitAt(s, k);
    assert Next(s, k) == Next(p, k);
  }

  lemma {:induction false} SplitAtFeed(a: string, b: string)
    ensures Splitlines(a + "\n" + b) == Pieces(a) + Splitlines(b)
    decreases |a|
  {
    hide FirstBreak, IsBreak, Splitlines;
    var s, p := a + "\n" + b, a + "\n";
    var k := FeedEnds(a);
    assert p <= s;
    SplitLonger(p, s, k);
    var n := Next(p, k);
    if n == |p| {
      NothingSplit();
      assert s[n..] == b && p[n..] == "";
    } else {
      assert s[n..] == a[n..] + "\n" + b && p[n..] == a[n..] + "\n";
      SplitAtFeed(a[n..], b);
      assert [p[..k]] + (Pieces(a[n..]) + Splitlines(b)) == ([p[..k]] + Pieces(a[n..])) + Splitlines(b);
    }
  }

  /** A text with a line feed at its end has a first line. */
  lemma FeedEnds(a: string) returns (k: nat)
    ensures k <= |a| && IsBreak((a + "\n")[k]) && BreakFree((a + "\n")[..k]) && (k == |a| ==> (a + "\n")[k] == '\n')
  {
    var p := a + "\n";
    k := FirstBreak(p);
    assert p[|a|] == '\n' && IsBreak(p[|a|]);
    assert forall j | 0 <= j < k :: p[..k][j] == p[j];
  }

  lemma {:induction false} JoinPieces(lines: seq<string>)
    requires lines != []
    ensures Splitlines(Join(lines) + "\n") == AllPieces(lines)
    decreases |lines|
  {
    hide Splitlines;
    var n := |lines| - 1;
    if n == 0 {
      assert lines == [lines[0]] && lines[..0] == [];
      assert AllPieces(lines) == [] + Pieces(lines[0]);
    } else {
      assert lines == lines[..n] + [lines[n]];
      JoinSnoc(lines[..n], lines[n]);
      JoinPieces(lines[..n]);
      SplitAtFeed(Join(lines[..n]), lines[n] + "\n");
      assert Join(lines) + "\n" == Join(lines[..n]) + "\n" + (lines[n] + "\n");
    }
  }

  /** A line feed at the end adds at most an empty line. */
  lemma {:induction false} FinalFeed(s: string)
    requires s != ""
    ensures Splitlines(s + "\n") == Splitlines(s) || Splitlines(s + "\n") == Splitlines(s) + [""]
    decreases |s|
  {
    var p := s + "\n";
    var k := FirstBreak(s);
    assert forall j | 0 <= j < |s| :: p[j] == s[j];
    if k == |s| {
      assert p == s + "\n" + "";
      assert BreakFree(s);
      SplitlinesHead(s, "");
      NothingSplit();
    } else {
      assert p[..k] == s[..k];
      assert BreakFree(p[..k]);
      FirstBreakAt(p, k);
      hide FirstBreak, IsBreak, BreakFree;
      FinalFeedRest(s, p, k);
    }
  }

  lemma {:induction false} FinalFeedRest(s: string, p: string, k: nat)
    requires p == s + "\n" && FirstBreak(s) == k == FirstBreak(p) && k < |s| && p[..k] == s[..k]
    ensures Splitlines(p) == Splitlines(s) || Splitlines(p) == Splitlines(s) + [""]
    decreases |s|, 0
  {
    hide FirstBreak, IsBreak;
    NothingSplit();
    FeedIsEmptyLine();
    var n := if s[k] == '\r' && k + 1 < |s| && s[k + 1] == '\n' then k + 2 else k + 1;
    assert Splitlines(s) == [s[..k]] + Splitlines(s[n..]);
    if n < |s| {
      assert p[n..] == s[n..] + "\n";
      assert Splitlines(p) == [s[..k]] + Splitlines(p[n..]);
      FinalFeed(s[n..]);
      assert [s[..k]] + (Splitlines(s[n..]) + [""]) == ([s[..k]] + Splitlines(s[n..])) + [""];
    } else if s[k] == '\r' && n == k + 1 {
      assert p[k + 2..] == "" && s[n..] == "";
    } else {
      assert p[n..] == "\n" && s[n..] == "";
    }
  }

  lemma FeedIsEmptyLine()
    ensures Splitlines("\n") == [""]
  {
    assert "\n" == "" + "\n" + "";
    SplitlinesHead("", "");
    NothingSplit();
  }

  // ---------------------------------------------------------------------------------------------
  // Delimiters and their pieces
  // ---------------------------------------------------------------------------------------------

  ghost predicate Blanks(pieces: seq<string>) {
    forall k | 0 <= k < |pieces| :: AllSpace(pieces[k])
  }

  lemma BlankIsIgnored(piece: string)
    requires AllSpace(piece)
    ensures Ignored(piece) && !IsDelimiter(piece)
  {
    LstripEmpty(piece);
    assert Strip(piece) == "";
  }

  lemma {:induction false} SpacesSplit(s: string)
    requires AllSpace(s)
    ensures Blanks(Splitlines(s))
    decreases |s|
  {
    hide IsSpace, IsBreak, FirstBreak, Splitlines;
    var k := FirstBreak(s);
    if s == "" {
      NothingSplit();
    } else if k == |s| {
      OneLine(s);
    } else {
      assert forall j | 0 <= j < k :: s[..k][j] == s[j];
      assert BreakFree(s[..k]);
      SplitAt(s, k);
      SpacesSplit(s[Next(s, k)..]);
    }
  }

  lemma OneLine(s: string)
    requires s != "" && FirstBreak(s) == |s|
    ensures Splitlines(s) == [s]
  {
  }

  /** The pieces of a delimiter line are one delimiter, and blanks around it. */
  ghost predicate Around(a: seq<string>, d: string, b: seq<string>) {
    Blanks(a) && IsDelimiter(d) && Blanks(b)
  }

  lemma {:induction false} DelimiterSplits(w: string, v: string) returns (a: seq<string>, d: string, b: seq<string>)
    requires AllSpace(w) && AllSpace(v)
    ensures Pieces(w + "---" + v) == a + [d] + b && Around(a, d, b)
    decreases |w|
  {
    hide FirstBreak, IsBreak, IsSpace, IsDelimiter, Splitlines;
    var p := w + "---" + v + "\n";
    var k := FirstBreak(w);
    if k == |w| {
      assert BreakFree(w);
      a, d, b := DashesFirst(w, v);
    } else {
      assert p == w + ("---" + v + "\n");
      assert forall j | 0 <= j < |w| :: p[j] == w[j];
      assert p[..k] == w[..k] && BreakFree(p[..k]);
      assert p[|w|] == '-';
      SplitAt(p, k);
      var n := Next(p, k);
      assert n <= |w|;
      assert p[n..] == w[n..] + "---" + v + "\n";
      var c;
      c, d, b := DelimiterSplits(w[n..], v);
      BlankInFront(w[..k], c, d, b);
      a := [w[..k]] + c;
    }
  }

  lemma BlankInFront(blank: string, c: seq<string>, d: string, b: seq<string>)
    requires AllSpace(blank) && Around(c, d, b)
    ensures [blank] + (c + [d] + b) == ([blank] + c) + [d] + b && Around([blank] + c, d, b)
  {
    hide AllSpace, IsDelimiter;
  }

  lemma DashesFirst(w: string, v: string) returns (a: seq<string>, d: string, b: seq<string>)
    requires AllSpace(w) && AllSpace(v) && BreakFree(w)
    ensures Pieces(w + "---" + v) == a + [d] + b && Around(a, d, b)
  {
    hide IsBreak, IsSpace, IsDelimiter, Splitlines;
    var q := v + "\n";
    var k := FeedEnds(v);
    var n := Next(q, k);
    SpacesToo(v, n);
    SpacesSplit(q[n..]);
    assert AllSpace(v[..k]);
    DashesStrip(w, v[..k]);
    DashesMore(w, v, k);
    a, d, b := [], w + "---" + v[..k], Splitlines(q[n..]);
    assert a + [d] + b == [d] + b;
  }

  lemma SpacesToo(v: string, n: nat)
    requires AllSpace(v) && n <= |v| + 1
    ensures AllSpace((v + "\n")[n..])
  {
  }

  lemma DashesMore(w: string, v: string, k: nat)
    requires BreakFree(w) && k <= |v| && IsBreak((v + "\n")[k]) && BreakFree((v + "\n")[..k])
    ensures var q := v + "\n";
            Splitlines(w + "---" + v + "\n") == [w + "---" + v[..k]] + Splitlines(q[Next(q, k)..])
  {
    hide Splitlines;
    var p, q := w + "---" + v + "\n", v + "\n";
    var x := w + "---";
    var m := |x| + k;
    assert BreakFree(x);
    hide IsBreak;
    assert p == x + q;
    assert q[..k] == v[..k];
    assert p[..m] == x + q[..k];
    assert p[..m] == w + "---" + v[..k];
    assert forall j | 0 <= j < |q| :: p[|x| + j] == q[j];
    BreakFreeBoth(x, q[..k]);
    SplitAt(p, m);
    assert Next(p, m) == |x| + Next(q, k);
    assert p[Next(p, m)..] == q[Next(q, k)..];
  }

  lemma BreakFreeBoth(a: string, b: string)
    requires BreakFree(a) && BreakFree(b)
    ensures BreakFree(a + b)
  {
    hide IsBreak;
  }

  lemma DashesStrip(w: string, v: string)
    requires AllSpace(w) && AllSpace(v)
    ensures IsDelimiter(w + "---" + v)
  {
    var s := w + "---" + v;
    assert s == w + ("---" + v);
    LstripFront(w, "---" + v);
    RstripSpaces("---", v);
    assert Rstrip("---") == "---" && Lstrip("---" + v) == "---" + v;
  }

  lemma {:induction false} LstripFront(w: string, s: string)
    requires AllSpace(w)
    ensures Lstrip(w + s) == Lstrip(s)
    decreases |w|
  {
    if w == "" {
      assert w + s == s;
    } else {
      assert (w + s)[1..] == w[1..] + s;
      LstripFront(w[1..], s);
    }
  }

  lemma DelimiterParts(s: string) returns (w: string, v: string)
    requires IsDelimiter(s)
    ensures s == w + "---" + v && AllSpace(w) && AllSpace(v)
  {
    LstripParts(s);
    var t := Lstrip(s);
    RstripParts(t);
    w := s[..|s| - |t|];
    v := t[3..];
    assert s == w + t && t == "---" + v;
  }

  lemma DelimiterPieces(s: string) returns (a: seq<string>, d: string, b: seq<string>)
    requires IsDelimiter(s)
    ensures Pieces(s) == a + [d] + b && Around(a, d, b)
  {
    var w, v := DelimiterParts(s);
    a, d, b := DelimiterSplits(w, v);
  }

  // ---------------------------------------------------------------------------------------------
  // Blanks and delimiters make no difference
  // ---------------------------------------------------------------------------------------------

  lemma {:induction false} UntilStops(x: seq<string>, d: string, y: seq<string>)
    requires IsDelimiter(d)
    ensures Until(x + [d] + y) == Until(x) && Until(x + [d] + y) != x + [d] + y
    decreases |y|
  {
    hide IsDelimiter;
    if y == [] {
      assert x + [d] + y == x + [d] && (x + [d])[..|x|] == x;
    } else {
      var n := |y| - 1;
      assert (x + [d] + y)[..|x| + 1 + n] == x + [d] + y[..n];
      UntilStops(x, d, y[..n]);
    }
  }

  lemma {:induction false} BlanksBehind(r: Reading, x: seq<string>, b: seq<string>)
    requires Blanks(b)
    ensures ReadAll(r, Until(x + b)) == ReadAll(r, Until(x))
    decreases |b|
  {
    hide IsDelimiter, Read, AllSpace, ReadAll;
    if b == [] {
      assert x + b == x;
    } else {
      var n := |b| - 1;
      assert (x + b)[..|x| + n] == x + b[..n];
      BlanksBehind(r, x, b[..n]);
      BlankIsIgnored(b[n]);
      IgnoredLast(r, x + b[..n], b[n]);
      assert x + b[..n] + [b[n]] == x + b;
    }
  }

  lemma IgnoredLast(r: Reading, x: seq<string>, piece: string)
    requires Ignored(piece)
    ensures ReadAll(r, x + [piece]) == ReadAll(r, x)
  {
    assert (x + [piece])[..|x|] == x;
  }

  lemma {:induction false} BlanksInFront(r: Reading, b: seq<string>, x: seq<string>)
    requires Blanks(b)
    ensures ReadAll(r, Until(b + x)) == ReadAll(r, Until(x))
    ensures Until(b + x) == b + Until(x)
    decreases |x|
  {
    hide IsDelimiter, Read, AllSpace;
    if x == [] {
      assert b + x == b && [] + b == b;
      BlanksBehind(r, [], b);
      BlanksStay(b);
    } else {
      var n := |x| - 1;
      assert (b + x)[..|b| + n] == b + x[..n];
      BlanksInFront(r, b, x[..n]);
      if Until(x) == x {
        assert Until(b + x) == b + x;
        assert ReadAll(r, b + x) == match ReadAll(r, b + x[..n]) case None => None case Some(m) => Read(m, x[n]);
      }
    }
  }

  lemma {:induction false} BlanksStay(b: seq<string>)
    requires Blanks(b)
    ensures Until(b) == b
    decreases |b|
  {
    hide IsDelimiter, AllSpace;
    if b != [] {
      BlanksStay(b[..|b| - 1]);
      BlankIsIgnored(b[|b| - 1]);
    }
  }

  /** Nothing from a delimiter line on is read. */
  lemma DelimiterEnds(lines: seq<string>, s: string, more: seq<string>)
    requires IsDelimiter(s)
    ensures Parse(lines + [s] + more) == Parse(lines)
  {
    hide IsDelimiter, Pieces, Until, ReadAll, Around;
    var a, d, b := DelimiterPieces(s);
    assert Around(a, d, b);
    EndsAt(AllPieces(lines), a, d, b + AllPieces(more));
    PiecesConcat(lines + [s], more);
    assert (lines + [s])[..|lines|] == lines;
    assert AllPieces(lines) + (a + [d] + b) + AllPieces(more) == AllPieces(lines) + a + [d] + (b + AllPieces(more));
  }

  lemma EndsAt(x: seq<string>, a: seq<string>, d: string, y: seq<string>)
    requires Blanks(a) && IsDelimiter(d)
    ensures ReadAll(NOTHING_READ, Until(x + a + [d] + y)) == ReadAll(NOTHING_READ, Until(x))
    ensures Until(x + a + [d] + y) != x + a + [d] + y
  {
    UntilStops(x + a, d, y);
    BlanksBehind(NOTHING_READ, x, a);
  }

  /** What the text of a block says is what its lines say, if the opening line begins with the delimiter. */
  lemma TextParses(open: string, fields: seq<string>, close: string)
    requires IsDelimiter(open) && IsDelimiter(close)
    ensures Pieces(open) != []
    ensures ParseText(Join([open] + fields + [close])) == if IsDelimiter(Pieces(open)[0]) then Parse(fields) else None
  {
    hide IsDelimiter, Pieces, Until, ReadAll, Splitlines, Around, Join;
    var lines := [open] + fields + [close];
    var text := Join(lines);
    var a, d, b := DelimiterPieces(open);
    var a', d', b' := DelimiterPieces(close);
    assert Around(a, d, b) && Around(a', d', b');
    JoinPieces(lines);
    BlockPieces(open, fields, close);
    JoinNonempty(lines, close);
    FinalFeed(text);
    var s := Splitlines(text);
    var x := Pieces(open) + AllPieces(fields) + a';
    assert x + ([d'] + b') == Pieces(open) + AllPieces(fields) + Pieces(close);
    AroundParts(a', d', b');
    var y := TextTail(s, x, d', b');
    TextReads(s, AllPieces(fields), a, d, b, a', d', y);
  }

  lemma AroundParts(a: seq<string>, d: string, b: seq<string>)
    requires Around(a, d, b)
    ensures Blanks(a) && IsDelimiter(d) && Blanks(b)
  {
  }

  lemma TextReads(s: seq<string>, f: seq<string>, a: seq<string>, d: string, b: seq<string>,
                  a': seq<string>, d': string, y: seq<string>)
    requires Around(a, d, b) && Blanks(a') && IsDelimiter(d') && s == a + [d] + b + f + a' + [d'] + y
    ensures IsDelimiter(s[0]) <==> IsDelimiter((a + [d] + b)[0])
    ensures IsDelimiter(s[0]) ==> Until(s[1..]) != s[1..] && ReadAll(NOTHING_READ, Until(s[1..])) == ReadAll(NOTHING_READ, Until(f))
  {
    hide Until, ReadAll, IsDelimiter, AllSpace;
    assert s[0] == (a + [d] + b)[0];
    if IsDelimiter(s[0]) {
      if a != [] {
        BlankIsIgnored(a[0]);
      }
      assert a == [] && s[1..] == b + f + a' + [d'] + y;
      EndsAt(b + f, a', d', y);
      BlanksInFront(NOTHING_READ, b, f);
    }
  }

  lemma JoinNonempty(lines: seq<string>, close: string)
    requires lines != [] && lines[|lines| - 1] == close && IsDelimiter(close)
    ensures Join(lines) != ""
  {
    assert close != "" by { assert Strip("") == ""; }
    if |lines| > 1 {
      assert lines == lines[..|lines| - 1] + [close];
      JoinSnoc(lines[..|lines| - 1], close);
    }
  }

  lemma BlockPieces(open: string, fields: seq<string>, close: string)
    ensures AllPieces([open] + fields + [close]) == Pieces(open) + AllPieces(fields) + Pieces(close)
  {
    hide Pieces;
    PiecesConcat([open] + fields, [close]);
    PiecesConcat([open], fields);
    OnePieces(open);
    OnePieces(close);
  }

  lemma OnePieces(line: string)
    ensures AllPieces([line]) == Pieces(line)
  {
    hide Pieces;
    assert [line][..0] == [] && [] + Pieces(line) == Pieces(line);
  }

  lemma EndsInDelimiter(s: seq<string>, x: seq<string>, d: string, b: seq<string>)
    requires x + ([d] + b) == s + [""] && IsDelimiter(d)
    ensures b != []
  {
    var t, u := s + [""], x + ([d] + b);
    assert t[|t| - 1] == "" && Strip("") == "";
    assert forall i | i == |x| :: u[i] == d;
  }

  /** Without an empty line at its end the text still holds the closing delimiter. */
  lemma TextTail(s: seq<string>, x: seq<string>, d: string, b: seq<string>) returns (y: seq<string>)
    requires x + ([d] + b) == s || x + ([d] + b) == s + [""]
    requires IsDelimiter(d)
    ensures s == x + [d] + y
  {
    if x + ([d] + b) == s {
      y := b;
    } else {
      EndsInDelimiter(s, x, d, b);
      y := b[..|b| - 1];
      assert s == (s + [""])[..|s|] == (x + ([d] + b))[..|s|];
    }
  }

  // ---------------------------------------------------------------------------------------------
  // Updating a block
  // ---------------------------------------------------------------------------------------------

  lemma FrontIs(b: Block)
    requires IsBlock(b)
    ensures Pieces(b.open) != [] && BlockFront(b) == if IsDelimiter(Pieces(b.open)[0]) then Parse(b.fields) else None
  {
    hide IsDelimiter, IsMarker, IsGap, IsPhysical, ParseText, Parse, Pieces, Size, Join;
    MarkerIsDelimiter(b.open);
    MarkerIsDelimiter(b.close);
    TextParses(b.open, b.fields, b.close);
  }

  /** Only the lines in front of the first delimiter line count. */
  lemma ParsesToBoundary(lines: seq<string>, more: seq<string>)
    ensures Parse(more + lines[Boundary(lines)..]) == Parse(more)
  {
    hide IsDelimiter, Parse;
    var c := Boundary(lines);
    if c == |lines| {
      assert more + lines[c..] == more;
    } else {
      DelimiterEnds(more, lines[c], lines[c + 1..]);
      assert more + lines[c..] == more + [lines[c]] + lines[c + 1..];
    }
  }

  lemma UpdatedBlockParses(ups: Updates, lines: seq<string>)
    ensures Parse(lines) == Parse(lines[..Boundary(lines)])
    ensures Parse(UpdatedBlock(ups, lines)) == Parse(Updated(ups, lines[..Boundary(lines)]))
  {
    hide Parse, Updated, Boundary;
    var c := Boundary(lines);
    ParsesToBoundary(lines, lines[..c]);
    ParsesToBoundary(lines, Updated(ups, lines[..c]));
    assert lines[..c] + lines[c..] == lines;
  }

  /** A line that is read as part of a block, behind the first. */
  predicate IsInner(line: string) {
    IsPhysical(line) && !IsMarker(line) && !IsGap(line)
  }

  lemma ReplacedIsInner(ups: Updates, line: string)
    requires SoundUpdates(ups)
    ensures Replaced(ups, line) == line || IsInner(Replaced(ups, line))
  {
    hide Sound, Line, IsInner;
    var r := Replacing(ups, line);
    if r.Some? {
      hide Replacing;
      SoundIsInner(ups[r.value].0, ups[r.value].1);
    }
  }

  lemma SoundIsInner(key: string, value: string)
    requires Sound(key, value)
    ensures IsInner(Line(key, value))
  {
    SoundIsPhysical(key, value);
  }

  lemma {:induction false} MissingIsInner(ups: Updates, lines: seq<string>, k: nat)
    requires SoundUpdates(ups) && k <= |ups|
    ensures forall i | 0 <= i < |Missing(ups, lines, k)| :: IsInner(Missing(ups, lines, k)[i])
    decreases k
  {
    hide Sound, Line, Seen, IsInner;
    if k > 0 {
      MissingIsInner(ups, lines, k - 1);
      SoundIsInner(ups[k - 1].0, ups[k - 1].1);
    }
  }

  /** Lines that make a block, as far as they go. */
  ghost predicate Contents(lines: seq<string>) {
    forall k | 0 <= k < |lines| :: IsPhysical(lines[k]) && !IsMarker(lines[k]) && (k > 0 ==> !IsGap(lines[k]))
  }

  lemma UpdatedContents(ups: Updates, lines: seq<string>)
    requires SoundUpdates(ups) && Contents(lines)
    ensures Contents(Updated(ups, lines))
  {
    hide SoundUpdates, IsMarker, IsGap, IsPhysical, Missing, Replaced;
    ReplacedAt(ups, lines);
    MissingIsInner(ups, lines, |ups|);
    forall k | 0 <= k < |lines|
      ensures Replaced(ups, lines[k]) == lines[k] || IsInner(Replaced(ups, lines[k]))
    {
      ReplacedIsInner(ups, lines[k]);
    }
  }

  lemma UpdatedBlockContents(ups: Updates, lines: seq<string>)
    requires SoundUpdates(ups) && Contents(lines)
    ensures Contents(UpdatedBlock(ups, lines))
  {
    hide SoundUpdates, IsMarker, IsGap, IsPhysical, Updated, IsDelimiter;
    var c := Boundary(lines);
    UpdatedContents(ups, lines[..c]);
    if c < |lines| {
      DelimiterIsNoGap(lines[c]);
    }
  }

  /** The rewritten block is delimited like the old one; it is accepted exactly if it is not too large. */
  lemma RewrittenFits(ups: Updates, b: Block)
    requires SoundUpdates(ups) && IsBlock(b)
    ensures IsBlock(Rewritten(ups, b)) <==> Size(Rewritten(ups, b)) <= MAX_HOOK_FRONTMATTER_BYTES
  {
    hide SoundUpdates, IsMarker, IsGap, IsPhysical, UpdatedBlock, Size;
    assert Contents(b.fields);
    UpdatedBlockContents(ups, b.fields);
  }

  /** An update of a block takes effect, and has no other effect, if and only if the rewritten block is not too large
      and the update of the lines in front of the first delimiter is effective. */
  lemma RewriteExact(ups: Updates, b: Block)
    requires SoundUpdates(ups) && BlockFront(b).Some?
    ensures Sets(ups, BlockFront(b).value, BlockFront(Rewritten(ups, b))) <==>
              Size(Rewritten(ups, b)) <= MAX_HOOK_FRONTMATTER_BYTES && Effective(ups, b.fields[..Boundary(b.fields)])
  {
    hide SoundUpdates, IsBlock, ParseText, Parse, Size, Effective, Boundary, Updated, UpdatedBlock, IsDelimiter, Pieces, NewValues, Leaves;
    RewrittenFits(ups, b);
    FrontIs(b);
    UpdatedBlockParses(ups, b.fields);
    UpdateExact(ups, b.fields[..Boundary(b.fields)]);
    if IsBlock(Rewritten(ups, b)) {
      FrontIs(Rewritten(ups, b));
    }
  }

  // ---------------------------------------------------------------------------------------------
  // Sizes
  // ---------------------------------------------------------------------------------------------

  lemma {:induction false} LineBytesConcat(a: seq<string>, b: seq<string>)
    ensures LineBytes(a + b) == LineBytes(a) + LineBytes(b)
    decreases |b|
  {
    if b == [] {
      assert a + b == a;
    } else {
      assert (a + b)[..|a + b| - 1] == a + b[..|b| - 1];
      LineBytesConcat(a, b[..|b| - 1]);
    }
  }
}
