/** The parts of Python's string type that the line editor relies on. */
module PyText {

  /** Characters that `str.strip` removes. */
  predicate IsSpace(c: char) {
    var n := c as int;
    || 0x09 <= n <= 0x0d || 0x1c <= n <= 0x20 || n == 0x85 || n == 0xa0 || n == 0x1680
    || 0x2000 <= n <= 0x200a || n == 0x2028 || n == 0x2029 || n == 0x202f || n == 0x205f || n == 0x3000
  }

  /** Characters at which `str.splitlines` ends a line. */
  predicate IsBreak(c: char) {
    var n := c as int;
    || 0x0a <= n <= 0x0d || 0x1c <= n <= 0x1e || n == 0x85 || n == 0x2028 || n == 0x2029
  }

  function Lstrip(s: string): string {
    if s != "" && IsSpace(s[0]) then Lstrip(s[1..]) else s
  }

  function Rstrip(s: string): string {
    if s != "" && IsSpace(s[|s| - 1]) then Rstrip(s[..|s| - 1]) else s
  }

  function Strip(s: string): string {
    Rstrip(Lstrip(s))
  }

  predicate AllSpace(s: string) {
    forall k | 0 <= k < |s| :: IsSpace(s[k])
  }

  /** Position of the first character that ends a line, or the length of the text. */
  function FirstBreak(s: string): (k: nat)
    ensures k <= |s| && forall j | 0 <= j < k :: !IsBreak(s[j])
    ensures k < |s| ==> IsBreak(s[k])
  {
    if s == "" || IsBreak(s[0]) then 0 else 1 + FirstBreak(s[1..])
  }

  /** `str.splitlines`: a carriage return and line feed together end one line. */
  function Splitlines(s: string): seq<string>
    decreases |s|
  {
    if s == "" then []
    else
      var k := FirstBreak(s);
      if k == |s| then [s]
      else if s[k] == '\r' && k + 1 < |s| && s[k + 1] == '\n' then [s[..k]] + Splitlines(s[k + 2..])
      else [s[..k]] + Splitlines(s[k + 1..])
  }

  /** `"\n".join(lines)` */
  function Join(lines: seq<string>): string {
    if lines == [] then ""
    else if |lines| == 1 then lines[0]
    else lines[0] + "\n" + Join(lines[1..])
  }

  predicate BreakFree(s: string) {
    forall k | 0 <= k < |s| :: !IsBreak(s[k])
  }

  ghost predicate Lines(lines: seq<string>) {
    forall k | 0 <= k < |lines| :: BreakFree(lines[k])
  }

  /** The only line breaks in the text are line feeds. */
  predicate LfOnly(s: string) {
    forall k | 0 <= k < |s| && IsBreak(s[k]) :: s[k] == '\n'
  }

  /** The length of a character in UTF-8. */
  function CharBytes(c: char): nat {
    var n := c as int;
    if n < 0x80 then 1 else if n < 0x800 then 2 else if n < 0x10000 then 3 else 4
  }

  function Bytes(s: string): nat {
    if s == "" then 0 else Bytes(s[..|s| - 1]) + CharBytes(s[|s| - 1])
  }

  lemma {:induction false} BytesConcat(a: string, b: string)
    ensures Bytes(a + b) == Bytes(a) + Bytes(b)
    decreases |b|
  {
    if b == "" {
      assert a + b == a;
    } else {
      assert (a + b)[..|a + b| - 1] == a + b[..|b| - 1];
      BytesConcat(a, b[..|b| - 1]);
    }
  }

  // ---------------------------------------------------------------------------------------------
  // Stripping
  // ---------------------------------------------------------------------------------------------

  lemma {:induction false} RstripParts(s: string)
    ensures |Rstrip(s)| <= |s| && Rstrip(s) == s[..|Rstrip(s)|] && AllSpace(s[|Rstrip(s)|..])
    ensures Rstrip(s) != "" ==> !IsSpace(Rstrip(s)[|Rstrip(s)| - 1])
    decreases |s|
  {
    hide IsSpace;
    if s != "" && IsSpace(s[|s| - 1]) {
      var t := s[..|s| - 1];
      RstripParts(t);
      var n := |Rstrip(t)|;
      forall k | n <= k < |s|
        ensures IsSpace(s[k])
      {
        assert k < |t| ==> t[n..][k - n] == s[k];
      }
      assert s[..n] == t[..n];
    }
  }

  lemma {:induction false} RstripSpaces(s: string, b: string)
    requires AllSpace(b)
    ensures Rstrip(s + b) == Rstrip(s)
    decreases |b|
  {
    if b == "" {
      assert s + b == s;
    } else {
      var c := b[..|b| - 1];
      assert (s + b)[..|s + b| - 1] == s + c;
      RstripSpaces(s, c);
    }
  }

  lemma {:induction false} RstripKeepsFront(x: string, s: string)
    requires Rstrip(s) != ""
    ensures Rstrip(x + s) == x + Rstrip(s)
    decreases |s|
  {
    if IsSpace(s[|s| - 1]) {
      assert (x + s)[..|x + s| - 1] == x + s[..|s| - 1];
      RstripKeepsFront(x, s[..|s| - 1]);
    }
  }

  lemma {:induction false} RstripEmpty(s: string)
    ensures Rstrip(s) == "" <==> AllSpace(s)
    decreases |s|
  {
    RstripParts(s);
    if AllSpace(s) && s != "" {
      RstripEmpty(s[..|s| - 1]);
    }
  }

  lemma RstripTwice(s: string)
    ensures Rstrip(Rstrip(s)) == Rstrip(s)
  {
    RstripParts(s);
  }

  lemma {:induction false} LstripParts(s: string)
    ensures |Lstrip(s)| <= |s| && Lstrip(s) == s[|s| - |Lstrip(s)|..] && AllSpace(s[..|s| - |Lstrip(s)|])
    ensures Lstrip(s) != "" ==> !IsSpace(Lstrip(s)[0])
    decreases |s|
  {
    if s != "" && IsSpace(s[0]) {
      LstripParts(s[1..]);
      var n := |s| - |Lstrip(s)|;
      assert forall k | 0 <= k < n :: k == 0 || s[k] == s[1..][k - 1];
    }
  }

  lemma {:induction false} LstripEmpty(s: string)
    ensures Lstrip(s) == "" <==> AllSpace(s)
    decreases |s|
  {
    if s != "" {
      if IsSpace(s[0]) {
        LstripEmpty(s[1..]);
        assert s == [s[0]] + s[1..];
        assert AllSpace(s) <==> AllSpace(s[1..]) by {
          assert forall k | 1 <= k < |s| :: s[k] == s[1..][k - 1];
        }
      } else {
        assert !AllSpace(s);
      }
    }
  }

  lemma LastIsKept(s: string, k: nat)
    requires k < |s| && !IsSpace(s[k])
    ensures k < |Rstrip(s)|
  {
    RstripParts(s);
    var cut := s[|Rstrip(s)|..];
    forall j | |Rstrip(s)| <= j < |s|
      ensures IsSpace(s[j])
    {
      assert cut[j - |Rstrip(s)|] == s[j];
    }
  }

  lemma FirstIsKept(s: string, k: nat)
    requires k < |s| && !IsSpace(s[k])
    ensures |s| - |Lstrip(s)| <= k
  {
    LstripParts(s);
    var cut := s[..|s| - |Lstrip(s)|];
    forall j | 0 <= j < |s| - |Lstrip(s)|
      ensures IsSpace(s[j])
    {
      assert cut[j] == s[j];
    }
  }

  // ---------------------------------------------------------------------------------------------
  // Joining and splitting
  // ---------------------------------------------------------------------------------------------

  lemma {:induction false} JoinSnoc(lines: seq<string>, last: string)
    requires lines != []
    ensures Join(lines + [last]) == Join(lines) + "\n" + last
    decreases |lines|
  {
    if |lines| == 1 {
      assert (lines + [last])[1..] == [last];
    } else {
      JoinSnoc(lines[1..], last);
      assert (lines + [last])[1..] == lines[1..] + [last];
      assert lines[0] + "\n" + (Join(lines[1..]) + "\n" + last) == (lines[0] + "\n" + Join(lines[1..])) + "\n" + last;
    }
  }

  lemma FirstBreakAt(s: string, k: nat)
    requires k < |s| && IsBreak(s[k]) && BreakFree(s[..k])
    ensures FirstBreak(s) == k
  {
    assert forall j | 0 <= j < k :: s[..k][j] == s[j];
  }

  lemma SplitlinesHead(line: string, rest: string)
    requires BreakFree(line)
    ensures Splitlines(line + "\n" + rest) == [line] + Splitlines(rest)
  {
    var s := line + "\n" + rest;
    assert s[|line|] == '\n' && s[..|line|] == line && s[|line| + 1..] == rest;
    FirstBreakAt(s, |line|);
  }

  lemma NothingSplit()
    ensures Splitlines("") == []
  {
  }

  /** Splitting the joined lines, closed by a line feed, gives the lines back. */
  lemma {:induction false} SplitlinesOfJoin(lines: seq<string>)
    requires lines != [] && Lines(lines)
    ensures Splitlines(Join(lines) + "\n") == lines
    decreases |lines|
  {
    hide BreakFree, Splitlines;
    if |lines| == 1 {
      assert Join(lines) + "\n" == lines[0] + "\n" + "";
      SplitlinesHead(lines[0], "");
      NothingSplit();
    } else {
      SplitlinesOfJoin(lines[1..]);
      assert Join(lines) + "\n" == lines[0] + "\n" + (Join(lines[1..]) + "\n");
      SplitlinesHead(lines[0], Join(lines[1..]) + "\n");
    }
  }

  lemma {:induction false} SplitlinesBreakFree(s: string)
    ensures Lines(Splitlines(s))
    decreases |s|
  {
    if s != "" {
      var k := FirstBreak(s);
      if k < |s| {
        if s[k] == '\r' && k + 1 < |s| && s[k + 1] == '\n' {
          SplitlinesBreakFree(s[k + 2..]);
        } else {
          SplitlinesBreakFree(s[k + 1..]);
        }
      }
    }
  }

  /** The lines left when the joined text loses its trailing white space. */
  function TrimLines(lines: seq<string>): seq<string> {
    if lines == [] then []
    else
      var n := |lines| - 1;
      if Rstrip(lines[n]) == "" then TrimLines(lines[..n]) else lines[..n] + [Rstrip(lines[n])]
  }

  lemma {:induction false} RstripJoin(lines: seq<string>)
    ensures Rstrip(Join(lines)) == Join(TrimLines(lines))
    decreases |lines|
  {
    if lines != [] {
      var n := |lines| - 1;
      var last := lines[n];
      if n == 0 {
        assert lines == [last] && TrimLines([]) == [];
      } else {
        assert lines == lines[..n] + [last];
        JoinSnoc(lines[..n], last);
        if Rstrip(last) == "" {
          RstripEmpty(last);
          assert Join(lines) == Join(lines[..n]) + ("\n" + last);
          RstripSpaces(Join(lines[..n]), "\n" + last);
          RstripJoin(lines[..n]);
        } else {
          RstripKeepsFront(Join(lines[..n]) + "\n", last);
          JoinSnoc(lines[..n], Rstrip(last));
        }
      }
    }
  }

  lemma {:induction false} TrimLinesFront(front: seq<string>, lines: seq<string>)
    requires TrimLines(lines) != []
    ensures TrimLines(front + lines) == front + TrimLines(lines)
    decreases |lines|
  {
    var n := |lines| - 1;
    assert (front + lines)[..|front| + n] == front + lines[..n];
    if Rstrip(lines[n]) == "" {
      TrimLinesFront(front, lines[..n]);
    } else {
      assert front + lines[..n] + [Rstrip(lines[n])] == front + (lines[..n] + [Rstrip(lines[n])]);
    }
  }

  lemma {:induction false} TrimLinesTwice(lines: seq<string>)
    ensures TrimLines(TrimLines(lines)) == TrimLines(lines)
    decreases |lines|
  {
    if lines != [] {
      var n := |lines| - 1;
      if Rstrip(lines[n]) == "" {
        TrimLinesTwice(lines[..n]);
      } else {
        RstripTwice(lines[n]);
      }
    }
  }

  lemma {:induction false} TrimLinesBreakFree(lines: seq<string>)
    requires Lines(lines)
    ensures Lines(TrimLines(lines))
    decreases |lines|
  {
    if lines != [] {
      var n := |lines| - 1;
      RstripParts(lines[n]);
      TrimLinesBreakFree(lines[..n]);
    }
  }
}
