/** Rendering a command line for PowerShell, and the lexical grammar by which PowerShell reads it back. */
module CommandRender {
  import opened Wrappers

  /** The single-quote characters of the PowerShell Language Specification, section 2.3.5.2. */
  const DELIMITERS: seq<char> := ['\'', '\U{2018}', '\U{2019}', '\U{201a}', '\U{201b}']

  predicate IsQuote(c: char) {
    c in DELIMITERS
  }

  /** `argument.replace(delimiter, delimiter * 2)` */
  function DoubleOne(s: string, delimiter: char): string {
    if s == "" then ""
    else (if s[0] == delimiter then [s[0], s[0]] else [s[0]]) + DoubleOne(s[1..], delimiter)
  }

  /** Every character of the given set doubled, all at once. */
  function DoubleAll(s: string, delimiters: seq<char>): string {
    if s == "" then ""
    else (if s[0] in delimiters then [s[0], s[0]] else [s[0]]) + DoubleAll(s[1..], delimiters)
  }

  function Quoted(argument: string): string {
    "'" + DoubleAll(argument, DELIMITERS) + "'"
  }

  lemma {:induction false} DoubleNone(s: string)
    ensures DoubleAll(s, []) == s
    decreases |s|
  {
    if s != "" {
      DoubleNone(s[1..]);
      assert [s[0]] + s[1..] == s;
    }
  }

  lemma {:induction false} DoubleOneConcat(a: string, b: string, d: char)
    ensures DoubleOne(a + b, d) == DoubleOne(a, d) + DoubleOne(b, d)
    decreases |a|
  {
    if a == "" {
      assert a + b == b;
    } else {
      assert (a + b)[1..] == a[1..] + b;
      DoubleOneConcat(a[1..], b, d);
    }
  }

  /** One more replacement pass doubles one more delimiter, and leaves what earlier passes doubled. */
  lemma {:induction false} OnePassMore(s: string, done: seq<char>, d: char)
    requires d !in done
    ensures DoubleOne(DoubleAll(s, done), d) == DoubleAll(s, done + [d])
    decreases |s|
  {
    if s != "" {
      OnePassMore(s[1..], done, d);
      var head := if s[0] in done then [s[0], s[0]] else [s[0]];
      DoubleOneConcat(head, DoubleAll(s[1..], done), d);
      if s[0] in done {
        assert s[0] != d && head[1..] == [s[0]] && [s[0]][1..] == "";
        assert DoubleOne([s[0]], d) == [s[0]];
      } else {
        assert [s[0]][1..] == "";
      }
    }
  }

  lemma DelimitersDiffer(k: nat)
    requires k < |DELIMITERS|
    ensures DELIMITERS[k] !in DELIMITERS[..k] && DELIMITERS[..k + 1] == DELIMITERS[..k] + [DELIMITERS[k]]
  {
  }

  /** The replacements one after the other come to one simultaneous doubling. */
  method PowershellSingleQuoted(argument: string) returns (quoted: string)
    ensures quoted == Quoted(argument)
  {
    var text := argument;
    DoubleNone(argument);
    for k := 0 to |DELIMITERS|
      invariant text == DoubleAll(argument, DELIMITERS[..k])
    {
      DelimitersDiffer(k);
      OnePassMore(argument, DELIMITERS[..k], DELIMITERS[k]);
      text := DoubleOne(text, DELIMITERS[k]);
    }
    assert DELIMITERS[..|DELIMITERS|] == DELIMITERS;
    quoted := "'" + text + "'";
  }

  const NUL: char := 0 as char

  function JoinSpaces(words: seq<string>): string {
    if words == [] then "" else if |words| == 1 then words[0] else words[0] + " " + JoinSpaces(words[1..])
  }

  function QuotedAll(argv: seq<string>): seq<string> {
    if argv == [] then [] else [Quoted(argv[0])] + QuotedAll(argv[1..])
  }

  function Rendered(argv: seq<string>): Result<string, ()> {
    if argv == [] || exists k :: 0 <= k < |argv| && NUL in argv[k] then Err(())
    else Ok("& " + JoinSpaces(QuotedAll(argv)))
  }

  // ---------------------------------------------------------------------------------------------
  // Reading it back
  // ---------------------------------------------------------------------------------------------

  /** Behind the opening quote of a verbatim string: two quote characters are one, any other ends it. */
  function LexVerbatim(s: string): (r: Option<(string, string)>)
    ensures r.Some? ==> |r.value.1| < |s|
    decreases |s|
  {
    if s == "" then None
    else if IsQuote(s[0]) then
      if |s| > 1 && IsQuote(s[1]) then
        match LexVerbatim(s[2..])
        case None => None
        case Some((content, rest)) => Some(([s[0]] + content, rest))
      else Some(("", s[1..]))
    else
      match LexVerbatim(s[1..])
      case None => None
      case Some((content, rest)) => Some(([s[0]] + content, rest))
  }

  predicate IsWhite(c: char) {
    c == ' ' || c == '\t'
  }

  function SkipWhite(s: string): (r: string)
    ensures |r| <= |s|
  {
    if s != "" && IsWhite(s[0]) then SkipWhite(s[1..]) else s
  }

  datatype Token = CallOperator | Verbatim(content: string)

  /** The tokens of a command of which every argument is a verbatim string standing on its own. */
  function Lex(s: string): Option<seq<Token>>
    decreases |s|
  {
    var t := SkipWhite(s);
    if t == "" then Some([])
    else if t[0] == '&' then
      match Lex(t[1..])
      case None => None
      case Some(rest) => Some([CallOperator] + rest)
    else if IsQuote(t[0]) then
      match LexVerbatim(t[1..])
      case None => None
      case Some((content, rest)) =>
        if rest != "" && !IsWhite(rest[0]) then None
        else match Lex(rest)
          case None => None
          case Some(more) => Some([Verbatim(content)] + more)
    else None
  }

  function Verbatims(argv: seq<string>): seq<Token> {
    if argv == [] then [] else [Verbatim(argv[0])] + Verbatims(argv[1..])
  }

  /** A quoted argument reads back as itself, whatever follows it, as long as that is no quote. */
  lemma {:induction false} VerbatimRoundTrip(s: string, rest: string)
    requires rest == "" || !IsQuote(rest[0])
    ensures LexVerbatim(DoubleAll(s, DELIMITERS) + "'" + rest) == Some((s, rest))
    decreases |s|
  {
    assert IsQuote('\'');
    hide IsQuote;
    if s == "" {
      var t := DoubleAll(s, DELIMITERS) + "'" + rest;
      assert t == "'" + rest && t[1..] == rest;
    } else {
      VerbatimRoundTrip(s[1..], rest);
      QuoteIsDelimiter(s[0]);
      var inner := DoubleAll(s[1..], DELIMITERS) + "'" + rest;
      var head := if s[0] in DELIMITERS then [s[0], s[0]] else [s[0]];
      var t := DoubleAll(s, DELIMITERS) + "'" + rest;
      assert t == head + inner && t[|head|..] == inner;
      assert [s[0]] + s[1..] == s;
    }
  }

  lemma QuoteIsDelimiter(c: char)
    ensures IsQuote(c) <==> c in DELIMITERS
  {
  }

  lemma LexArgument(argument: string, rest: string)
    requires (rest == "" || rest[0] == ' ') && Lex(rest).Some?
    ensures Lex(Quoted(argument) + rest) == Some([Verbatim(argument)] + Lex(rest).value)
  {
    VerbatimRoundTrip(argument, rest);
    var body := DoubleAll(argument, DELIMITERS) + "'" + rest;
    assert Quoted(argument) + rest == "'" + body;
    hide LexVerbatim, DoubleAll, Quoted;
    LexQuoted("'" + body, body, argument, rest);
  }

  lemma LexQuoted(s: string, body: string, content: string, rest: string)
    requires s != "" && s[0] == '\'' && s[1..] == body && LexVerbatim(body) == Some((content, rest))
    requires (rest == "" || rest[0] == ' ') && Lex(rest).Some?
    ensures Lex(s) == Some([Verbatim(content)] + Lex(rest).value)
  {
    assert SkipWhite(s) == s && IsQuote('\'');
    hide IsQuote, LexVerbatim;
  }

  lemma {:induction false} ArgumentsRoundTrip(argv: seq<string>)
    ensures Lex(JoinSpaces(QuotedAll(argv))) == Some(Verbatims(argv))
    decreases |argv|
  {
    if argv != [] {
      hide Lex, Quoted;
      var more := argv[1..];
      ArgumentsRoundTrip(more);
      assert QuotedAll(argv)[1..] == QuotedAll(more);
      if more == [] {
        NothingLexed();
        LexArgument(argv[0], "");
        assert Quoted(argv[0]) + "" == Quoted(argv[0]);
      } else {
        var rest := " " + JoinSpaces(QuotedAll(more));
        SpaceSkipped(JoinSpaces(QuotedAll(more)));
        LexArgument(argv[0], rest);
        assert Quoted(argv[0]) + " " + JoinSpaces(QuotedAll(more)) == Quoted(argv[0]) + rest;
      }
    }
  }

  lemma NothingLexed()
    ensures Lex("") == Some([])
  {
  }

  lemma SpaceSkipped(s: string)
    ensures Lex(" " + s) == Lex(s)
  {
    assert (" " + s)[1..] == s;
  }

  lemma CallLexed(s: string)
    requires Lex(s).Some?
    ensures Lex("& " + s) == Some([CallOperator] + Lex(s).value)
  {
    assert ("& " + s)[0] == '&' && ("& " + s)[1..] == " " + s;
    assert SkipWhite("& " + s) == "& " + s;
    SpaceSkipped(s);
  }

  /** For every argument list without NUL, PowerShell reads the rendering as the call operator and exactly
      those arguments; an empty list or a NUL is refused. */
  lemma RenderingRoundTrip(argv: seq<string>)
    ensures Rendered(argv).Ok? <==> argv != [] && forall k | 0 <= k < |argv| :: NUL !in argv[k]
    ensures Rendered(argv).Ok? ==> Lex(Rendered(argv).value) == Some([CallOperator] + Verbatims(argv))
  {
    hide Lex, JoinSpaces, QuotedAll, Verbatims;
    ArgumentsRoundTrip(argv);
    CallLexed(JoinSpaces(QuotedAll(argv)));
  }

  /** So no two argument lists have the same rendering. */
  lemma {:induction false} RenderingTells(a: seq<string>, b: seq<string>)
    requires Rendered(a).Ok? && Rendered(a) == Rendered(b)
    ensures a == b
  {
    RenderingRoundTrip(a);
    RenderingRoundTrip(b);
    assert ([CallOperator] + Verbatims(a))[1..] == Verbatims(a) && ([CallOperator] + Verbatims(b))[1..] == Verbatims(b);
    VerbatimsTell(a, b);
  }

  lemma {:induction false} VerbatimsTell(a: seq<string>, b: seq<string>)
    requires Verbatims(a) == Verbatims(b)
    ensures a == b
    decreases |a|
  {
    if a != [] && b != [] {
      assert Verbatims(a)[0] == Verbatims(b)[0];
      assert Verbatims(a)[1..] == Verbatims(a[1..]) && Verbatims(b)[1..] == Verbatims(b[1..]);
      VerbatimsTell(a[1..], b[1..]);
    }
  }
}
