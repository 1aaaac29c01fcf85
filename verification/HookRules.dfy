/** The rules about hook captures in plain terms: which block is accepted, which hook and status it names, which captures
    are made, reviewed and archived. */
module HookRules {
  import opened Wrappers
  import opened PyText
  import opened FrontMatter
  import opened FrontBlock
  import opened HookCaptures

  // ---------------------------------------------------------------------------------------------
  // Blocks
  // ---------------------------------------------------------------------------------------------

  predicate AllAsciiSpace(s: string) {
    forall k | 0 <= k < |s| :: s[k] in "\t\n\U{b}\U{c}\r "
  }

  lemma AsciiSpaces(c: char)
    ensures IsAsciiSpace(c) <==> c in "\t\n\U{b}\U{c}\r "
  {
    var all := "\t\n\U{b}\U{c}\r ";
    assert all[0] == '\t' && all[1] == '\n' && all[2] as int == 11 && all[3] as int == 12 && all[4] == '\r' && all[5] == ' ';
  }

  lemma {:induction false} AsciiLstripParts(s: string) returns (front: string)
    ensures s == front + AsciiLstrip(s) && AllAsciiSpace(front)
    ensures AsciiLstrip(s) != "" ==> AsciiLstrip(s)[0] !in "\t\n\U{b}\U{c}\r "
    decreases |s|
  {
    front := "";
    if s != "" {
      AsciiSpaces(s[0]);
      if IsAsciiSpace(s[0]) {
        front := AsciiLstripParts(s[1..]);
        front := [s[0]] + front;
      }
    }
  }

  lemma {:induction false} AsciiRstripParts(s: string) returns (back: string)
    ensures s == AsciiRstrip(s) + back && AllAsciiSpace(back)
    ensures AsciiRstrip(s) != "" ==> AsciiRstrip(s)[|AsciiRstrip(s)| - 1] !in "\t\n\U{b}\U{c}\r "
    decreases |s|
  {
    back := "";
    if s != "" {
      AsciiSpaces(s[|s| - 1]);
      if IsAsciiSpace(s[|s| - 1]) {
        back := AsciiRstripParts(s[..|s| - 1]);
        back := back + [s[|s| - 1]];
      }
    }
  }

  lemma {:induction false} AsciiLstripSkips(front: string, s: string)
    requires AllAsciiSpace(front) && s != "" && s[0] !in "\t\n\U{b}\U{c}\r "
    ensures AsciiLstrip(front + s) == s
    decreases |front|
  {
    if front == "" {
      assert front + s == s;
      AsciiSpaces(s[0]);
    } else {
      AsciiSpaces(front[0]);
      assert (front + s)[1..] == front[1..] + s;
      AsciiLstripSkips(front[1..], s);
    }
  }

  lemma {:induction false} AsciiRstripSkips(s: string, back: string)
    requires AllAsciiSpace(back) && s != "" && s[|s| - 1] !in "\t\n\U{b}\U{c}\r "
    ensures AsciiRstrip(s + back) == s
    decreases |back|
  {
    if back == "" {
      assert s + back == s;
      AsciiSpaces(s[|s| - 1]);
    } else {
      var n := |back| - 1;
      AsciiSpaces(back[n]);
      assert (s + back)[..|s + back| - 1] == s + back[..n];
      AsciiRstripSkips(s, back[..n]);
    }
  }

  /** A delimiter is three hyphens with nothing but ASCII white space around them. */
  lemma MarkerExactly(line: string)
    ensures FrontBlock.IsMarker(line) <==>
              exists front, back :: AllAsciiSpace(front) && AllAsciiSpace(back) && line == front + "---" + back
  {
    hide AllAsciiSpace;
    if FrontBlock.IsMarker(line) {
      var front := AsciiLstripParts(line);
      var back := AsciiRstripParts(AsciiLstrip(line));
      assert line == front + "---" + back;
    }
    if front, back :| AllAsciiSpace(front) && AllAsciiSpace(back) && line == front + "---" + back {
      assert line == front + ("---" + back);
      assert ("---" + back)[0] == '-' && "---"[2] == '-';
      NoHyphen();
      AsciiLstripSkips(front, "---" + back);
      AsciiRstripSkips("---", back);
    }
  }

  lemma NoHyphen()
    ensures '-' !in "\t\n\U{b}\U{c}\r " && '#' !in "\t\n\U{b}\U{c}\r "
  {
  }

  /** What must not stand inside a block: nothing but ASCII white space, or behind it a hash. */
  lemma GapExactly(line: string)
    ensures IsGap(line) <==> AllAsciiSpace(line) || exists front, back :: AllAsciiSpace(front) && line == front + "#" + back
  {
    var front := AsciiLstripParts(line);
    var rest := AsciiLstrip(line);
    var back := AsciiRstripParts(rest);
    NoHyphen();
    assert rest != "" ==> line[|front|] == rest[0];
    if IsGap(line) {
      if AsciiStrip(line) == "" {
        assert rest == back;
        assert AllAsciiSpace(front + back);
      } else {
        assert rest[0] == '#';
        assert rest == "#" + rest[1..];
        assert line == front + "#" + rest[1..];
      }
    }
    if f, b :| AllAsciiSpace(f) && line == f + "#" + b {
      assert line == f + ("#" + b) && ("#" + b)[0] == '#';
      AsciiLstripSkips(f, "#" + b);
      HashFirst(b);
    }
  }

  lemma HashFirst(b: string)
    ensures AsciiRstrip("#" + b) != "" && AsciiRstrip("#" + b)[0] == '#'
  {
    var s := "#" + b;
    var back := AsciiRstripParts(s);
    NoHyphen();
    assert s[0] == '#' && (AsciiRstrip(s) == "" ==> back == s);
    assert AsciiRstrip(s) != "" ==> s[0] == AsciiRstrip(s)[0];
  }

  lemma {:induction false} JoinedBytes(lines: seq<string>, close: string)
    ensures Bytes(Join(lines + [close])) == LineBytes(lines) + |lines| + Bytes(close)
    decreases |lines|
  {
    hide CharBytes;
    if lines == [] {
      assert lines + [close] == [close];
    } else {
      var rest := lines[1..];
      assert lines + [close] == [lines[0]] + (rest + [close]);
      assert (lines + [close])[1..] == rest + [close];
      JoinedBytes(rest, close);
      BytesConcat(lines[0] + "\n", Join(rest + [close]));
      BytesConcat(lines[0], "\n");
      OneFeed();
      LineBytesConcat([lines[0]], rest);
      assert [lines[0]] + rest == lines && [lines[0]][..0] == [];
      assert LineBytes([lines[0]]) == Bytes(lines[0]);
    }
  }

  lemma OneFeed()
    ensures Bytes("\n") == 1
  {
    assert "\n"[..0] == "";
  }

  /** A block is accepted if and only if its first and last lines are delimiters and no other is; no line between but perhaps the
      first is blank or a comment; and it has at most 65536 bytes. With line feeds only, as the program writes it, these are
      the bytes of its text. */
  lemma BlockExactly(b: Block)
    ensures IsBlock(b) <==>
              && FrontBlock.IsMarker(b.open) && FrontBlock.IsMarker(b.close) && Size(b) <= 65536
              && (forall k | 0 <= k < |b.fields| :: !FrontBlock.IsMarker(b.fields[k]))
              && (forall k | 1 <= k < |b.fields| :: !IsGap(b.fields[k]))
              && (forall line | line in [b.open, b.close] + b.fields :: '\n' !in line && (line != "" ==> line[|line| - 1] != '\r'))
    ensures b.ends == |b.fields| + 2 ==> Size(b) == Bytes(Join([b.open] + b.fields + [b.close]) + "\n")
  {
    hide FrontBlock.IsMarker, IsGap, Size, Bytes, Join;
    var all := [b.open, b.close] + b.fields;
    assert all[0] == b.open && all[1] == b.close && forall k | 0 <= k < |b.fields| :: all[k + 2] == b.fields[k];
    assert forall line :: line in all ==> line == b.open || line == b.close || line in b.fields;
    SizeExactly(b);
  }

  lemma SizeExactly(b: Block)
    ensures b.ends == |b.fields| + 2 ==> Size(b) == Bytes(Join([b.open] + b.fields + [b.close]) + "\n")
  {
    hide Bytes, Join, LineBytes;
    JoinedBytes([b.open] + b.fields, b.close);
    LineBytesConcat([b.open], b.fields);
    OneLineBytes(b.open);
    BytesConcat(Join([b.open] + b.fields + [b.close]), "\n");
    OneFeed();
  }

  lemma OneLineBytes(line: string)
    ensures LineBytes([line]) == Bytes(line)
  {
    assert [line][..0] == [];
  }

  // ---------------------------------------------------------------------------------------------
  // Hooks
  // ---------------------------------------------------------------------------------------------

  /** The hooks that there are. */
  predicate KnownHook(provider: string, event: string) {
    (provider, event) in {
      ("codex", "UserPromptSubmit"), ("codex", "PreCompact"), ("codex", "PostCompact"), ("codex", "Stop"),
      ("claude", "UserPromptSubmit"), ("claude", "SessionStart"), ("claude", "PreCompact"), ("claude", "Stop"),
      ("claude", "SubagentStop"), ("claude", "Notification")}
  }

  lemma HooksExactly(provider: string, event: string)
    ensures Supported(provider, event) <==> KnownHook(provider, event)
  {
  }

  /** A reference names a hook: behind `hook:` a spelling of its provider without a colon, and behind another colon its event. */
  ghost predicate RefersTo(ref: string, provider: string, event: string) {
    exists spelt: string :: ':' !in spelt && Strip(Lower(spelt)) == provider && ref == "hook:" + spelt + ":" + event
  }

  lemma {:induction false} ColonAt(front: string, back: string)
    requires ':' !in front
    ensures Colon(front + ":" + back) == |front|
    decreases |front|
  {
    if front == "" {
      assert (front + ":" + back)[0] == ':';
    } else {
      assert (front + ":" + back)[1..] == front[1..] + ":" + back;
      ColonAt(front[1..], back);
    }
  }

  lemma SplitRefRefers(ref: string, provider: string, event: string)
    requires SplitRef(ref) == Some((provider, event))
    ensures Supported(provider, event) && RefersTo(ref, provider, event)
  {
    hide Lower, Strip, Supported;
    var c := Colon(ref);
    var rest := ref[c + 1..];
    var d := Colon(rest);
    var spelt := rest[..d];
    assert rest == spelt + ":" + rest[d + 1..];
    assert ref == "hook" + ":" + rest;
    assert ref == "hook:" + spelt + ":" + event;
  }

  lemma RefersSplits(spelt: string, event: string)
    requires ':' !in spelt
    ensures SplitRef("hook:" + spelt + ":" + event) ==
            if Supported(Strip(Lower(spelt)), event) then Some((Strip(Lower(spelt)), event)) else None
  {
    hide Lower, Strip, Supported, Colon;
    var ref := "hook:" + spelt + ":" + event;
    var rest := spelt + ":" + event;
    assert ref == "hook" + ":" + rest;
    ColonAt("hook", rest);
    assert ref[..4] == "hook" && ref[5..] == rest;
    ColonAt(spelt, event);
    assert rest[..|spelt|] == spelt && rest[|spelt| + 1..] == event;
  }

  lemma SplitRefExactly(ref: string, provider: string, event: string)
    ensures SplitRef(ref) == Some((provider, event)) <==> KnownHook(provider, event) && RefersTo(ref, provider, event)
  {
    hide Lower, Strip, Supported, KnownHook, SplitRef;
    HooksExactly(provider, event);
    if SplitRef(ref) == Some((provider, event)) {
      SplitRefRefers(ref, provider, event);
    }
    if KnownHook(provider, event) && RefersTo(ref, provider, event) {
      var spelt :| ':' !in spelt && Strip(Lower(spelt)) == provider && ref == "hook:" + spelt + ":" + event;
      RefersSplits(spelt, event);
    }
  }

  /** The hook of a capture: the one that the text `ref` below `source` refers to. */
  lemma HookOfExactly(j: Json, front: Front, provider: string, event: string)
    ensures ProviderEvent(j, front) == Some((provider, event)) <==>
              && "source" in front && front["source"].Nested? && "ref" in front["source"].fields
              && KnownHook(provider, event)
              && var ref := ScalarOf(j, front["source"].fields["ref"]); ref.Text? && RefersTo(ref.text, provider, event)
  {
    hide ScalarOf, SplitRef, KnownHook, RefersTo;
    if "source" in front && front["source"].Nested? && "ref" in front["source"].fields
       && ScalarOf(j, front["source"].fields["ref"]).Text? {
      SplitRefExactly(ScalarOf(j, front["source"].fields["ref"]).text, provider, event);
    }
  }

  // ---------------------------------------------------------------------------------------------
  // Values and status
  // ---------------------------------------------------------------------------------------------

  /** What a value means: brackets make a list, which is kept as written; quotes make the text between them; otherwise `true`,
      `false`, `null`, a tilde and numbers have their meaning, and anything else is itself. */
  lemma ScalarExactly(j: Json, raw: string)
    requires raw != ""
    ensures raw[0] == '[' && raw[|raw| - 1] == ']' ==> ScalarOf(j, raw) == Other(raw)
    ensures forall s: string | raw == "\"" + s + "\"" && (forall k | 0 <= k < |s| :: ' ' <= s[k] <= '~' && s[k] !in "\"\\") ::
              ScalarOf(j, raw) == Text(s)
    ensures forall s: string | raw == "'" + s + "'" && '\'' !in s :: ScalarOf(j, raw) == Text(s)
    ensures raw[0] !in "[\"'" ==>
              ScalarOf(j, raw) ==
              if Lower(raw) == "true" then Flag(true)
              else if Lower(raw) == "false" then Flag(false)
              else if Lower(raw) == "null" || raw == "~" then Other(raw)
              else if IsNumber(raw) then Other(raw)
              else Text(raw)
  {
    hide Lower, IsNumber;
    forall s: string | raw == "\"" + s + "\"" && (forall k | 0 <= k < |s| :: ' ' <= s[k] <= '~' && s[k] !in "\"\\")
      ensures ScalarOf(j, raw) == Text(s)
    {
      QuotedReads(j, s);
    }
    forall s: string | raw == "'" + s + "'" && '\'' !in s
      ensures ScalarOf(j, raw) == Text(s)
    {
      SingleQuotedReads(j, s);
    }
    FirstChars(raw[0]);
  }

  lemma FirstChars(c: char)
    ensures c in "[\"'" <==> c == '[' || c == '\"' || c == '\''
  {
  }

  lemma SingleQuotedReads(j: Json, s: string)
    requires '\'' !in s
    ensures ScalarOf(j, "'" + s + "'") == Text(s)
  {
    var raw := "'" + s + "'";
    NothingUndoubled(s);
    assert raw[0] == '\'' && raw[|raw| - 1] == '\'' && raw[1..|raw| - 1] == s;
    hide Lower, IsNumber, Undoubled, IsPlain;
  }

  lemma {:induction false} NothingUndoubled(s: string)
    requires '\'' !in s
    ensures Undoubled(s) == s
    decreases |s|
  {
    if s != "" {
      NothingUndoubled(s[1..]);
      assert s == [s[0]] + s[1..];
    }
  }

  /** The 26 capital letters become small ones, and nothing else changes. */
  lemma {:induction false} LowerExactly(s: string)
    ensures |Lower(s)| == |s|
    ensures forall k | 0 <= k < |s| :: Lower(s)[k] as int == s[k] as int + if 65 <= s[k] as int < 65 + 26 then 32 else 0
    decreases |s|
  {
    if s != "" {
      LowerExactly(s[1..]);
      assert forall k | 1 <= k < |s| :: s[k] == s[1..][k - 1] && Lower(s)[k] == Lower(s[1..])[k - 1];
    }
  }

  /** One digit at least, and nothing else. */
  predicate Digits(s: string) {
    s != "" && forall c | c in s :: c in "0123456789"
  }

  lemma DigitsExactly(s: string)
    ensures AllDigits(s) <==> Digits(s)
  {
    forall c
      ensures '0' <= c <= '9' <==> c in "0123456789"
    {
      if '0' <= c <= '9' {
        assert "0123456789"[c as int - '0' as int] == c;
      }
    }
    assert forall k | 0 <= k < |s| :: s[k] in s;
  }

  /** Digits, and perhaps a point and digits. */
  ghost predicate Numeral(t: string) {
    Digits(t) || exists whole, fraction :: Digits(whole) && Digits(fraction) && t == whole + "." + fraction
  }

  lemma NumeralExactly(t: string)
    ensures Numeral(t) <==> IsNumeral(t)
  {
    hide AllDigits, Digits;
    DigitsExactly(t);
    if k :| 0 <= k < |t| && t[k] == '.' && AllDigits(t[..k]) && AllDigits(t[k + 1..]) {
      DigitsExactly(t[..k]);
      DigitsExactly(t[k + 1..]);
      assert t == t[..k] + "." + t[k + 1..];
    }
    if whole, fraction :| Digits(whole) && Digits(fraction) && t == whole + "." + fraction {
      DigitsExactly(whole);
      DigitsExactly(fraction);
      assert t[..|whole|] == whole && t[|whole|] == '.' && t[|whole| + 1..] == fraction;
    }
  }

  lemma NoSign(t: string)
    requires Numeral(t)
    ensures t != "" && t[0] != '-'
  {
    if Digits(t) {
      assert t[0] in t;
    } else {
      var whole, fraction :| Digits(whole) && Digits(fraction) && t == whole + "." + fraction;
      assert whole[0] in whole && t[0] == whole[0];
    }
  }

  /** A number is a numeral, perhaps behind a minus sign. */
  lemma NumberExactly(raw: string)
    ensures IsNumber(raw) <==> Numeral(raw) || exists t :: Numeral(t) && raw == "-" + t
  {
    hide IsNumeral, Numeral;
    if raw != "" && raw[0] == '-' {
      NumeralExactly(raw[1..]);
      assert raw == "-" + raw[1..];
      assert Numeral(raw) ==> false by {
        if Numeral(raw) {
          NoSign(raw);
        }
      }
      var rest := raw[1..];
      assert IsNumber(raw) <==> Numeral(rest);
      assert Numeral(rest) ==> exists t :: Numeral(t) && raw == "-" + t;
      forall t | raw == "-" + t
        ensures t == rest
      {
        assert ("-" + t)[1..] == t;
      }
    } else {
      NumeralExactly(raw);
      forall t
        ensures raw != "-" + t
      {
        assert ("-" + t)[0] == '-';
      }
    }
  }

  /** Between single quotes every pair of them is one. */
  lemma {:induction false} UndoubledExactly(front: string, back: string)
    requires '\'' !in front
    ensures Undoubled(front) == front && Undoubled(front + "''" + back) == front + "'" + Undoubled(back)
    decreases |front|
  {
    NothingUndoubled(front);
    if front == "" {
      assert front + "''" + back == "''" + back && ("''" + back)[2..] == back;
    } else {
      UndoubledExactly(front[1..], back);
      assert (front + "''" + back)[1..] == front[1..] + "''" + back;
      assert [front[0]] + front[1..] == front;
    }
  }

  /** A character outside ASCII is written as `\\u` and the four hexadecimal digits of its code. */
  lemma UnicodeExactly(n: nat) returns (a: nat, b: nat, c: nat, d: nat)
    requires n < 0x10000
    ensures a < 16 && b < 16 && c < 16 && d < 16 && n == ((a * 16 + b) * 16 + c) * 16 + d
    ensures |Unicode(n)| == 6 && Unicode(n)[..2] == "\\u"
    ensures var hex := "0123456789abcdef";
            Unicode(n)[2] == hex[a] && Unicode(n)[3] == hex[b] && Unicode(n)[4] == hex[c] && Unicode(n)[5] == hex[d]
  {
    a, b, c, d := n / 0x1000, n / 0x100 % 0x10, n / 0x10 % 0x10, n % 0x10;
    Nibbles(n);
    HexDigits16(a);
    HexDigits16(b);
    HexDigits16(c);
    HexDigits16(d);
    hide HexDigit;
  }

  lemma Nibbles(n: nat)
    requires n < 0x10000
    ensures n / 0x1000 < 16 && n == ((n / 0x1000 * 16 + n / 0x100 % 0x10) * 16 + n / 0x10 % 0x10) * 16 + n % 0x10
  {
  }

  lemma HexDigits16(k: nat)
    requires k < 16
    ensures HexDigit(k) == "0123456789abcdef"[k]
  {
  }

  /** The status of a capture: the one of the three that is written, whatever its case and the white space around it; without
      one of them `reviewed` if that is flagged, and pending otherwise. */
  lemma StatusExactly(j: Json, front: Front)
    ensures var written := FieldOf(j, front, "review_status");
            var word := if written.Text? then Lower(Strip(written.text)) else "";
            Status(j, front) ==
            if word == "reviewed" || word == "rejected" || word == "dismissed" then word
            else if FieldOf(j, front, "reviewed") == Flag(true) then "reviewed"
            else "pending"
    ensures forall key | key in front && front[key].Raw? :: FieldOf(j, front, key) == ScalarOf(j, front[key].text)
    ensures forall key | !(key in front && front[key].Raw?) :: FieldOf(j, front, key) == Other("")
  {
    hide Lower, Strip, ScalarOf;
  }

  // ---------------------------------------------------------------------------------------------
  // Words
  // ---------------------------------------------------------------------------------------------

  /** The text without its white space. */
  function Solid(s: string): string {
    if s == "" then "" else (if IsSpace(s[0]) then "" else [s[0]]) + Solid(s[1..])
  }

  /** How many words end in the text. */
  function Ends(s: string): nat {
    if s == "" then 0 else Ends(s[1..]) + if !IsSpace(s[0]) && (|s| == 1 || IsSpace(s[1])) then 1 else 0
  }

  function Glued(words: seq<string>): string {
    if words == [] then "" else words[0] + Glued(words[1..])
  }

  /** Nothing in it is white space. */
  predicate IsSolid(s: string) {
    s != "" && forall k | 0 <= k < |s| :: !IsSpace(s[k])
  }

  lemma {:induction false} SolidStrips(s: string)
    ensures Solid(Lstrip(s)) == Solid(s) && Ends(Lstrip(s)) == Ends(s)
    decreases |s|
  {
    hide IsSpace;
    if s != "" && IsSpace(s[0]) {
      SolidStrips(s[1..]);
    }
  }

  lemma NoWord(s: string)
    requires s == "" || IsSpace(s[0])
    ensures WordEnd(s) == 0
  {
  }

  lemma OneChar(s: string)
    requires s != "" && !IsSpace(s[0])
    ensures WordEnd(s) == 1 + WordEnd(s[1..])
    ensures Solid(s) == [s[0]] + Solid(s[1..])
    ensures Ends(s) == Ends(s[1..]) + if WordEnd(s[1..]) == 0 then 1 else 0
  {
    hide IsSpace;
  }

  lemma {:induction false} WordEnds(s: string)
    ensures var k := WordEnd(s);
            && (forall i | 0 <= i < k :: !IsSpace(s[i])) && (k < |s| ==> IsSpace(s[k]))
            && Solid(s) == s[..k] + Solid(s[k..]) && (k > 0 ==> Ends(s) == 1 + Ends(s[k..]))
    decreases |s|
  {
    hide IsSpace, Solid, Ends, WordEnd;
    if s == "" || IsSpace(s[0]) {
      NoWord(s);
      assert s[0..] == s && s[..0] == "";
    } else {
      OneChar(s);
      WordEnds(s[1..]);
      var n := WordEnd(s[1..]);
      assert s[1..][n..] == s[n + 1..] && [s[0]] + s[1..][..n] == s[..n + 1];
      assert forall i | 1 <= i <= n :: s[i] == s[1..][i - 1];
      assert n + 1 < |s| ==> s[n + 1] == s[1..][n];
    }
  }

  /** Splitting a text into words keeps every character that is not white space, in its order; each word is solid, and there are
      as many as end in the text. */
  lemma {:induction false} WordsExactly(s: string)
    ensures Glued(Words(s)) == Solid(s) && |Words(s)| == Ends(s) && forall w | w in Words(s) :: IsSolid(w)
    decreases |s|
  {
    hide IsSpace;
    LstripParts(s);
    SolidStrips(s);
    var t := Lstrip(s);
    if t != "" {
      WordEnds(t);
      var k := WordEnd(t);
      WordsExactly(t[k..]);
      assert Words(s) == [t[..k]] + Words(t[k..]);
      assert Words(s)[1..] == Words(t[k..]);
    } else {
      assert Solid("") == "" && Ends("") == 0;
    }
  }

  lemma {:induction false} JoinedEnds(words: seq<string>)
    requires words != [] && forall w | w in words :: IsSolid(w)
    ensures var s := SpaceJoin(words); s != "" && !IsSpace(s[0]) && !IsSpace(s[|s| - 1]) && BreakFree(s)
    decreases |words|
  {
    assert words[0] in words;
    if |words| > 1 {
      var rest := SpaceJoin(words[1..]);
      JoinedEnds(words[1..]);
      assert SpaceJoin(words) == words[0] + " " + rest;
      forall k | 0 <= k < |SpaceJoin(words)|
        ensures !IsBreak(SpaceJoin(words)[k])
      {
        BreaksAreSpaces(SpaceJoin(words)[k]);
        assert k > |words[0]| ==> SpaceJoin(words)[k] == rest[k - |words[0]| - 1];
      }
    } else {
      forall k | 0 <= k < |words[0]|
        ensures !IsBreak(words[0][k])
      {
        BreaksAreSpaces(words[0][k]);
      }
    }
  }

  lemma BreaksAreSpaces(c: char)
    ensures IsBreak(c) ==> IsSpace(c) && c != ' '
  {
  }

  /** A reason is its words with one space between them, on one line. */
  lemma SqueezedExactly(s: string)
    ensures Squeezed(s) == SpaceJoin(Words(s)) && BreakFree(Squeezed(s))
    ensures Squeezed(s) != "" <==> exists k :: 0 <= k < |s| && !IsSpace(s[k])
  {
    hide IsSpace;
    WordsExactly(s);
    SolidExactly(s);
    if Words(s) != [] {
      JoinedEnds(Words(s));
      StripSound(SpaceJoin(Words(s)));
      assert Words(s)[0] in Words(s) && Glued(Words(s))[0] == Words(s)[0][0];
    } else {
      assert SpaceJoin([]) == "" && Strip("") == "";
    }
  }

  lemma {:induction false} SolidExactly(s: string)
    ensures Solid(s) != "" <==> exists k :: 0 <= k < |s| && !IsSpace(s[k])
    decreases |s|
  {
    hide IsSpace;
    if s != "" {
      SolidExactly(s[1..]);
      if k :| 0 <= k < |s[1..]| && !IsSpace(s[1..][k]) {
        assert s[k + 1] == s[1..][k];
      }
      if k :| 0 <= k < |s| && !IsSpace(s[k]) {
        assert k > 0 ==> s[1..][k - 1] == s[k];
      }
    }
  }

  // ---------------------------------------------------------------------------------------------
  // Operations
  // ---------------------------------------------------------------------------------------------

  /** A capture is made if and only if its hook is known, the inbox has none of its payload, there is room, and the secret scan
      has nothing against it; it is then the only change. */
  lemma CapturesExactly(s: State, name: Name, file: File, maxPending: Option<int>, flagged: bool)
    requires name.Capture?
    ensures var made :=
              && KnownHook(name.provider, name.event)
              && (forall n | n in s.inbox && n.Capture? ::
                    n.provider != name.provider || n.event != name.event || n.digest != name.digest)
              && (maxPending.Some? ==> maxPending.value > |s.inbox|)
              && !flagged;
            Captured(s, name, file, maxPending, flagged) == if made then State(s.inbox[name := file], s.archive) else s
  {
    HooksExactly(name.provider, name.event);
    hide Supported, KnownHook;
  }

  lemma {:induction false} NonemptyStrip(s: string)
    ensures Strip(s) != "" <==> exists k :: 0 <= k < |s| && !IsSpace(s[k])
  {
    hide IsSpace;
    LstripParts(s);
    if AllSpace(s) {
      LstripEmpty(s);
    } else {
      var t := Lstrip(s);
      RstripParts(t);
    }
  }

  /** A review is accepted if and only if its status is one of the three, whatever its case and the white space around it; the
      reviewer and the reason have a visible character; the capture is in the inbox, can be read, and is pending; and the
      secret scan has nothing against it. */
  lemma AcceptsExactly(j: Json, s: State, name: Name, r: Review, flagged: bool)
    ensures Accepts(j, s, name, r, flagged) <==>
              && Lower(Strip(r.status)) in {"reviewed", "rejected", "dismissed"}
              && (exists k :: 0 <= k < |r.reviewer| && !IsSpace(r.reviewer[k]))
              && (exists k :: 0 <= k < |r.reason| && !IsSpace(r.reason[k]))
              && name in s.inbox && FrontOf(j, s.inbox[name]).Some?
              && Status(j, FrontOf(j, s.inbox[name]).value) == "pending" && !flagged
  {
    hide Lower, FrontOf, Status, Squeezed, IsSpace;
    NonemptyStrip(r.reviewer);
    SqueezedExactly(r.reason);
    hide Strip;
  }

  /** A capture is eligible if and only if it can be read and names a known hook, which is the chosen one if one is chosen; its
      status is one of the three, and the chosen one if one is chosen; its review is old enough; and nothing stands at its
      place in the archive. */
  lemma EligibleExactly(j: Json, o: Selection, archive: map<(string, Name), File>, name: Name, f: File)
    ensures Eligible(j, o, archive, name, f) <==>
              && BlockFront(f.block).Some?
              && var front := BlockFront(f.block).value;
                 && (exists provider, event ::
                       && ProviderEvent(j, front) == Some((provider, event))
                       && (o.provider == None || o.provider == Some(provider)) && (o.event == None || o.event == Some(event)))
                 && Status(j, front) in {"reviewed", "rejected", "dismissed"}
                 && (o.status == None || o.status == Some(Status(j, front)))
                 && (match o.age(FieldOf(j, front, "reviewed_at")) case Some(days) => days >= o.minDays case None => false)
                 && (o.target, name) !in archive
  {
    hide BlockFront, ProviderEvent, Status, FieldOf;
    if BlockFront(f.block).Some? && ProviderEvent(j, BlockFront(f.block).value).Some? {
      var hook := ProviderEvent(j, BlockFront(f.block).value).value;
      assert hook == (hook.0, hook.1);
    }
  }

  // ---------------------------------------------------------------------------------------------
  // What a review leaves
  // ---------------------------------------------------------------------------------------------

  /** Reading JSON gives back what was written. */
  ghost predicate ReadsDumped(j: Json) {
    forall s :: j.decode(Dumped(s)) == Some(s)
  }

  lemma {:induction false} PlainMeansEqual(s: string)
    requires IsPlain(Escaped(s))
    ensures Escaped(s) == s
    decreases |s|
  {
    hide Escape;
    if s != "" {
      var n := |s| - 1;
      var front, last := Escaped(s[..n]), Escape(s[n]);
      assert Escaped(s) == front + last;
      assert forall k | 0 <= k < |front| :: front[k] == Escaped(s)[k];
      assert forall k | 0 <= k < |last| :: last[k] == Escaped(s)[|front| + k];
      PlainMeansEqual(s[..n]);
      EscapesStart(s[n]);
    }
  }

  lemma EscapesStart(c: char)
    ensures Escape(c) == [c] || (Escape(c) != "" && Escape(c)[0] == '\\')
  {
  }

  lemma DumpedReads(j: Json, s: string)
    requires ReadsDumped(j)
    ensures ScalarOf(j, Dumped(s)) == Text(s)
  {
    var raw := Dumped(s);
    assert raw[0] == '\"' && raw[|raw| - 1] == '\"' && |raw| >= 2 && Inner(raw) == Escaped(s);
    if IsPlain(Escaped(s)) {
      PlainMeansEqual(s);
    }
    hide Escaped, Lower, IsNumber, IsPlain;
  }

  lemma RenderedReads(j: Json, s: string)
    requires ReadsDumped(j) && BreakFree(s)
    ensures ScalarOf(j, Rendered(s)) == Text(Strip(s))
  {
    hide ScalarOf, Dumped, Strip;
    if s == "" {
      assert Splitlines(s) == [] && SpaceJoin([]) == "";
    } else {
      OneLine(s);
    }
    DumpedReads(j, Strip(s));
  }

  /** A review that takes effect leaves a capture that says: reviewed; the chosen status; the reviewer and the date, if each is on
      one line, without the white space around it; the words of the reason with one space between them. All its other fields
      are what they were. */
  lemma ReviewSays(j: Json, s: State, name: Name, r: Review, flagged: bool)
    requires Accepts(j, s, name, r, flagged) && ReadsDumped(j)
    requires TakesEffect(j, r, s.inbox[name], Reviewed(j, s, name, r, flagged).inbox[name])
    ensures var before := FrontOf(j, s.inbox[name]).value;
            var after := FrontOf(j, Reviewed(j, s, name, r, flagged).inbox[name]);
            && after.Some?
            && FieldOf(j, after.value, "reviewed") == Flag(true)
            && FieldOf(j, after.value, "review_status") == Text(Lower(Strip(r.status)))
            && (BreakFree(r.reviewer) ==> FieldOf(j, after.value, "reviewed_by") == Text(Strip(r.reviewer)))
            && (BreakFree(r.on) ==> FieldOf(j, after.value, "reviewed_at") == Text(Strip(r.on)))
            && FieldOf(j, after.value, "review_reason") == Text(SpaceJoin(Words(r.reason)))
            && forall key | key !in {"reviewed", "review_status", "reviewed_by", "reviewed_at", "review_reason"} ::
                 && (key in after.value <==> key in before) && (key in before ==> after.value[key] == before[key])
  {
    hide FrontOf, Rendered, Strip, Lower, Words, SpaceJoin, Squeezed, ScalarOf, Reviewed, Accepts;
    AcceptsExactly(j, s, name, r, flagged);
    ReviewedKeeps(j, s, name, r, flagged);
    var before := FrontOf(j, s.inbox[name]).value;
    var after := FrontOf(j, Reviewed(j, s, name, r, flagged).inbox[name]).value;
    UpsSay(r, after);
    StatusReadsBack(j, Lower(Strip(r.status)));
    TrueReads(j);
    if BreakFree(r.reviewer) {
      StrippedTwice(r.reviewer);
      RenderedReads(j, Strip(r.reviewer));
    }
    if BreakFree(r.on) {
      RenderedReads(j, r.on);
    }
    SqueezedExactly(r.reason);
    RenderedReads(j, Squeezed(r.reason));
    SqueezedStrips(r.reason);
    OthersStay(r, before, after);
  }

  lemma TrueReads(j: Json)
    ensures ScalarOf(j, "true") == Flag(true)
  {
    assert Lower("true") == "true" by {
      WordLower("true");
    }
    assert "true"[0] == 't' && "true"[3] == 'e';
    hide Lower;
  }

  lemma StrippedTwice(s: string)
    requires BreakFree(s)
    ensures Strip(Strip(s)) == Strip(s) && BreakFree(Strip(s))
  {
    LstripParts(s);
    RstripParts(Lstrip(s));
    hide IsSpace, IsBreak;
    var t := Strip(s);
    assert Lstrip(s) == s[|s| - |Lstrip(s)|..];
    assert forall k | 0 <= k < |t| :: t[k] == Lstrip(s)[k] == s[|s| - |Lstrip(s)| + k];
    if t != "" {
      assert t[0] == Lstrip(s)[0];
      StripSound(t);
    }
  }

  lemma SqueezedStrips(s: string)
    ensures Strip(Squeezed(s)) == Squeezed(s)
  {
    hide IsSpace;
    SqueezedExactly(s);
    WordsExactly(s);
    if Words(s) != [] {
      JoinedEnds(Words(s));
      StripSound(SpaceJoin(Words(s)));
    }
  }

  lemma UpsSay(r: Review, after: Front)
    requires NewValues(Ups(r), after)
    ensures "reviewed" in after && after["reviewed"] == Raw("true")
    ensures "review_status" in after && after["review_status"] == Raw(Rendered(Lower(Strip(r.status))))
    ensures "reviewed_by" in after && after["reviewed_by"] == Raw(Rendered(Strip(r.reviewer)))
    ensures "reviewed_at" in after && after["reviewed_at"] == Raw(Rendered(r.on))
    ensures "review_reason" in after && after["review_reason"] == Raw(Rendered(Squeezed(r.reason)))
  {
    hide Rendered, Strip, Lower, Squeezed;
    assert |Ups(r)| == 5 && Ups(r)[0].0 == "reviewed" && Ups(r)[1].0 == "review_status" && Ups(r)[2].0 == "reviewed_by";
    assert Ups(r)[3].0 == "reviewed_at" && Ups(r)[4].0 == "review_reason";
  }

  lemma OthersStay(r: Review, before: Front, after: Front)
    requires Leaves(Ups(r), before, after)
    ensures forall key | key !in {"reviewed", "review_status", "reviewed_by", "reviewed_at", "review_reason"} ::
              (key in after <==> key in before) && (key in before ==> after[key] == before[key])
  {
    hide Rendered, Strip, Lower, Squeezed;
    forall key | key !in {"reviewed", "review_status", "reviewed_by", "reviewed_at", "review_reason"}
      ensures (key in after <==> key in before) && (key in before ==> after[key] == before[key])
    {
      assert !Named(Ups(r), key);
      assert FrontMatter.Get(after, key) == FrontMatter.Get(before, key);
    }
  }
}
