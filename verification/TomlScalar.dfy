/** Scalar values of the configuration files: how the writer prints them and how TOML reads them back. */
module TomlScalar {
  import opened Wrappers

  /** A float is kept as its printed token. */
  datatype Value =
    | Bool(b: bool)
    | Int(n: int)
    | Float(token: string)
    | Str(s: string)
    | List(items: seq<string>)

  const DELETE: char := 127 as char

  predicate IsControl(c: char) {
    (c as int) < 0x20 || c == DELETE
  }

  predicate IsDigit(c: char) {
    '0' <= c <= '9'
  }

  // ---------------------------------------------------------------------------------------------
  // Printing
  // ---------------------------------------------------------------------------------------------

  function HexDigit(n: nat): char
    requires n < 16
  {
    "0123456789abcdef"[n]
  }

  /** One character of a JSON string without ASCII escaping. */
  function Escaped(c: char): string {
    if c == '\"' then "\\\""
    else if c == '\\' then "\\\\"
    else if c == '\n' then "\\n"
    else if c == '\r' then "\\r"
    else if c == '\t' then "\\t"
    else if (c as int) == 8 then "\\b"
    else if (c as int) == 12 then "\\f"
    else if (c as int) < 0x20 then "\\u00" + [HexDigit((c as int) / 16), HexDigit((c as int) % 16)]
    else [c]
  }

  function Escape(s: string): string {
    if s == "" then "" else Escaped(s[0]) + Escape(s[1..])
  }

  function Quoted(s: string): string {
    "\"" + Escape(s) + "\""
  }

  function Items(items: seq<string>): string {
    if items == [] then ""
    else if |items| == 1 then Quoted(items[0])
    else Quoted(items[0]) + ", " + Items(items[1..])
  }

  function Digits(n: nat): string {
    if n < 10 then [('0' as int + n) as char] else Digits(n / 10) + [('0' as int + n % 10) as char]
  }

  function FormatInt(n: int): string {
    if n < 0 then "-" + Digits(-n) else Digits(n)
  }

  function FormatScalar(v: Value): string {
    match v
    case Bool(b) => if b then "true" else "false"
    case Int(n) => FormatInt(n)
    case Float(token) => token
    case Str(s) => Quoted(s)
    case List(items) => "[" + Items(items) + "]"
  }

  // ---------------------------------------------------------------------------------------------
  // Reading
  // ---------------------------------------------------------------------------------------------

  predicate IsBlank(c: char) {
    c == ' ' || c == '\t'
  }

  function SkipBlank(s: string): (r: string)
    ensures |r| <= |s|
  {
    if s != "" && IsBlank(s[0]) then SkipBlank(s[1..]) else s
  }

  function HexValue(c: char): Option<nat> {
    if IsDigit(c) then Some(c as int - '0' as int)
    else if 'a' <= c <= 'f' then Some(c as int - 'a' as int + 10)
    else if 'A' <= c <= 'F' then Some(c as int - 'A' as int + 10)
    else None
  }

  function Hex4(s: string): Option<nat>
    requires |s| == 4
  {
    match (HexValue(s[0]), HexValue(s[1]), HexValue(s[2]), HexValue(s[3]))
    case (Some(a), Some(b), Some(c), Some(d)) => Some(((a * 16 + b) * 16 + c) * 16 + d)
    case _ => None
  }

  /** One escape or plain character inside a basic string, and how many characters it takes. */
  function ReadChar(s: string): Option<(char, nat)>
    requires s != ""
  {
    if s[0] == '\"' then None
    else if s[0] != '\\' then (if IsControl(s[0]) && s[0] != '\t' then None else Some((s[0], 1)))
    else if |s| < 2 then None
    else if s[1] == '\"' then Some(('\"', 2))
    else if s[1] == '\\' then Some(('\\', 2))
    else if s[1] == 'b' then Some((8 as char, 2))
    else if s[1] == 't' then Some(('\t', 2))
    else if s[1] == 'n' then Some(('\n', 2))
    else if s[1] == 'f' then Some((12 as char, 2))
    else if s[1] == 'r' then Some(('\r', 2))
    else if s[1] == 'u' && |s| >= 6 then
      match Hex4(s[2..6])
      case None => None
      case Some(n) => if n < 0xd800 || 0xe000 <= n < 0x10000 then Some((n as char, 6)) else None
    else None
  }

  /** A basic string after its opening quote: its content, and what follows the closing quote. */
  function ReadBasic(s: string): (r: Option<(string, string)>)
    ensures r.Some? ==> |r.value.1| < |s|
    decreases |s|
  {
    if s == "" then None
    else if s[0] == '\"' then Some(("", s[1..]))
    else match ReadChar(s)
      case None => None
      case Some((c, n)) =>
        if n > |s| then None
        else match ReadBasic(s[n..])
          case None => None
          case Some((content, rest)) => Some(([c] + content, rest))
  }

  /** The elements of an array of basic strings after its opening bracket. */
  function ReadItems(s: string): (r: Option<(seq<string>, string)>)
    ensures r.Some? ==> |r.value.1| < |s|
    decreases |s|
  {
    var t := SkipBlank(s);
    if t == "" then None
    else if t[0] == ']' then Some(([], t[1..]))
    else if t[0] != '\"' then None
    else match ReadBasic(t[1..])
      case None => None
      case Some((item, rest)) =>
        var u := SkipBlank(rest);
        if u == "" then None
        else if u[0] == ']' then Some(([item], u[1..]))
        else if u[0] != ',' then None
        else match ReadItems(u[1..])
          case None => None
          case Some((more, after)) => Some(([item] + more, after))
  }

  predicate IsNumberChar(c: char) {
    IsDigit(c) || c == '+' || c == '-' || c == '.' || c == 'e'
  }

  function NumberRun(s: string): (k: nat)
    ensures k <= |s|
  {
    if s != "" && IsNumberChar(s[0]) then 1 + NumberRun(s[1..]) else 0
  }

  predicate AllDigits(s: string) {
    s != "" && forall k | 0 <= k < |s| :: IsDigit(s[k])
  }

  function Decimal(s: string): nat
    requires forall k | 0 <= k < |s| :: IsDigit(s[k])
  {
    if s == "" then 0
    else
      assert IsDigit(s[|s| - 1]);
      10 * Decimal(s[..|s| - 1]) + (s[|s| - 1] as int - '0' as int)
  }

  /** Decimal digits without a leading zero. */
  predicate IsNatural(s: string) {
    AllDigits(s) && (s[0] == '0' ==> |s| == 1)
  }

  predicate IsInteger(s: string) {
    IsNatural(s) || (|s| > 1 && (s[0] == '-' || s[0] == '+') && IsNatural(s[1..]))
  }

  function IntegerValue(s: string): int
    requires IsInteger(s)
  {
    var sign: int := if s[0] == '-' then -1 else 1;
    sign * (if IsNatural(s) then Decimal(s) else Decimal(s[1..]))
  }

  /** A finite float token: number characters with a fraction or an exponent, starting like a number. */
  predicate IsFloatToken(s: string) {
    && s != "" && NumberRun(s) == |s| && ('.' in s || 'e' in s)
    && (IsDigit(s[0]) || (|s| > 1 && (s[0] == '-' || s[0] == '+') && IsDigit(s[1])))
  }

  function ReadNumber(s: string): (r: Option<(Value, string)>)
    ensures r.Some? ==> |r.value.1| < |s|
  {
    var k := NumberRun(s);
    if k == 0 then None
    else if IsInteger(s[..k]) then Some((Int(IntegerValue(s[..k])), s[k..]))
    else if IsFloatToken(s[..k]) then Some((Float(s[..k]), s[k..]))
    else None
  }

  function ReadValue(s: string): (r: Option<(Value, string)>)
    ensures r.Some? ==> |r.value.1| < |s|
  {
    if s == "" then None
    else if "true" <= s then Some((Bool(true), s[4..]))
    else if "false" <= s then Some((Bool(false), s[5..]))
    else if s[0] == '\"' then
      if "\"\"\"" <= s then None
      else match ReadBasic(s[1..])
        case None => None
        case Some((content, rest)) => Some((Str(content), rest))
    else if s[0] == '[' then
      match ReadItems(s[1..])
      case None => None
      case Some((items, rest)) => Some((List(items), rest))
    else ReadNumber(s)
  }

  // ---------------------------------------------------------------------------------------------
  // What is printed reads back
  // ---------------------------------------------------------------------------------------------

  predicate NoDelete(s: string) {
    DELETE !in s
  }

  lemma HexDigitReads(n: nat)
    requires n < 16
    ensures HexValue(HexDigit(n)) == Some(n)
  {
  }

  lemma ReadsControl(c: char, r: string)
    requires (c as int) < 0x20
    ensures var e := "\\u00" + [HexDigit((c as int) / 16), HexDigit((c as int) % 16)];
            ReadChar(e + r) == Some((c, 6))
  {
    var e := "\\u00" + [HexDigit((c as int) / 16), HexDigit((c as int) % 16)];
    var s := e + r;
    HexDigitReads((c as int) / 16);
    HexDigitReads((c as int) % 16);
    assert s[2..6] == ['0', '0', HexDigit((c as int) / 16), HexDigit((c as int) % 16)];
    assert Hex4(s[2..6]) == Some(c as int);
  }

  /** A printed character reads back as itself, and only a delete character does not. */
  lemma ReadsEscaped(c: char, r: string)
    ensures |Escaped(c)| > 0 && (Escaped(c) + r)[0] != '\"'
    ensures c != DELETE ==> ReadChar(Escaped(c) + r) == Some((c, |Escaped(c)|))
    ensures c == DELETE ==> ReadChar(Escaped(c) + r) == None
  {
    if (c as int) < 0x20 && c != '\n' && c != '\r' && c != '\t' && (c as int) != 8 && (c as int) != 12 {
      ReadsControl(c, r);
    }
  }

  /** A printed string reads back exactly when it holds no delete character, which TOML forbids
      inside a basic string and the printer leaves as it is. */
  lemma {:induction false} StringRoundTrip(s: string, r: string)
    ensures ReadBasic(Escape(s) + "\"" + r) == if NoDelete(s) then Some((s, r)) else None
    decreases |s|
  {
    if s == "" {
      assert Escape(s) + "\"" + r == "\"" + r;
    } else {
      var t := Escape(s[1..]) + "\"" + r;
      assert Escape(s) + "\"" + r == Escaped(s[0]) + t;
      ReadsEscaped(s[0], t);
      assert (Escaped(s[0]) + t)[|Escaped(s[0])|..] == t;
      StringRoundTrip(s[1..], r);
      assert [s[0]] + s[1..] == s;
    }
  }

  lemma ItemReads(item: string, rest: string)
    ensures ReadItems(Quoted(item) + rest) ==
            if !NoDelete(item) then None
            else
              var u := SkipBlank(rest);
              if u == "" then None
              else if u[0] == ']' then Some(([item], u[1..]))
              else if u[0] != ',' then None
              else match ReadItems(u[1..])
                case None => None
                case Some((more, after)) => Some(([item] + more, after))
  {
    hide Escape, ReadBasic, ReadChar, Escaped;
    var s := Quoted(item) + rest;
    assert s == "\"" + (Escape(item) + "\"" + rest);
    assert s[1..] == Escape(item) + "\"" + rest;
    assert SkipBlank(s) == s;
    StringRoundTrip(item, rest);
  }

  lemma {:induction false} ItemsRoundTrip(items: seq<string>)
    requires items != []
    ensures ReadItems(Items(items) + "]") ==
            if forall k | 0 <= k < |items| :: NoDelete(items[k]) then Some((items, "")) else None
    decreases |items|
  {
    hide ReadItems, Quoted, NoDelete;
    if |items| == 1 {
      ItemReads(items[0], "]");
      assert items == [items[0]];
    } else {
      var w := Items(items[1..]) + "]";
      var rest := "," + (" " + w);
      assert Items(items) + "]" == Quoted(items[0]) + rest;
      ItemReads(items[0], rest);
      assert rest[1..] == " " + w;
      ItemsSkipBlank(items[1..]);
      ItemsRoundTrip(items[1..]);
      assert [items[0]] + items[1..] == items;
      assert forall k | 1 <= k < |items| :: items[k] == items[1..][k - 1];
    }
  }

  /** The blank after a comma is skipped. */
  lemma ItemsSkipBlank(items: seq<string>)
    requires items != []
    ensures ReadItems(" " + (Items(items) + "]")) == ReadItems(Items(items) + "]")
  {
    var w := Items(items) + "]";
    assert w[0] == '\"';
    assert (" " + w)[1..] == w;
    assert SkipBlank(" " + w) == SkipBlank(w) == w;
  }

  lemma {:induction false} DigitsRoundTrip(n: nat)
    ensures IsNatural(Digits(n)) && Decimal(Digits(n)) == n && (n > 0 ==> Digits(n)[0] != '0')
    decreases n
  {
    if n < 10 {
      assert Digits(n)[..0] == "";
    } else {
      DigitsRoundTrip(n / 10);
      var d := Digits(n);
      assert d[..|d| - 1] == Digits(n / 10);
      assert forall k | 0 <= k < |d| - 1 :: d[k] == Digits(n / 10)[k];
    }
  }

  lemma {:induction false} NumberRunAll(s: string)
    requires forall k | 0 <= k < |s| :: IsNumberChar(s[k])
    ensures NumberRun(s) == |s|
    decreases |s|
  {
    if s != "" {
      NumberRunAll(s[1..]);
    }
  }

  lemma IntegerTokenReads(s: string)
    requires s != "" && IsInteger(s) && forall k | 0 <= k < |s| :: IsNumberChar(s[k])
    ensures ReadValue(s) == Some((Int(IntegerValue(s)), ""))
  {
    hide Decimal, IsInteger, IntegerValue;
    NumberRunAll(s);
    assert IsNumberChar(s[0]);
    assert s[..|s|] == s && s[|s|..] == "";
  }

  lemma IntRoundTrip(n: int)
    ensures ReadValue(FormatInt(n)) == Some((Int(n), ""))
  {
    hide ReadValue, Digits, Decimal;
    var s := FormatInt(n);
    if n < 0 {
      DigitsRoundTrip(-n);
      assert s[1..] == Digits(-n);
      assert forall k | 1 <= k < |s| :: s[k] == Digits(-n)[k - 1];
    } else {
      DigitsRoundTrip(n);
    }
    IntegerTokenReads(s);
  }

  /** The values whose printed form TOML accepts. */
  predicate Readable(v: Value) {
    match v
    case Str(s) => NoDelete(s)
    case List(items) => forall k | 0 <= k < |items| :: NoDelete(items[k])
    case Float(token) => IsFloatToken(token)
    case _ => true
  }

  /** Printing a value and reading it back gives the value, for exactly the readable ones. */
  lemma ValueRoundTrip(v: Value)
    requires v.Float? ==> IsFloatToken(v.token)
    ensures ReadValue(FormatScalar(v)) == if Readable(v) then Some((v, "")) else None
  {
    match v
    case Bool(b) =>
    case Int(n) => IntRoundTrip(n);
    case Float(token) =>
      assert token[..|token|] == token && token[|token|..] == "";
    case Str(s) => QuotedRoundTrip(s);
    case List(items) => ListRoundTrip(items);
  }

  lemma QuotedRoundTrip(s: string)
    ensures ReadValue(Quoted(s)) == if NoDelete(s) then Some((Str(s), "")) else None
  {
    StringRoundTrip(s, "");
    assert Escape(s) + "\"" + "" == Escape(s) + "\"";
    var q := Quoted(s);
    assert q[0] == '\"' && q[1..] == Escape(s) + "\"";
    if s != "" {
      ReadsEscaped(s[0], "");
      assert q[1] == Escaped(s[0])[0];
    }
    hide Escape, ReadBasic, NoDelete;
    assert !("\"\"\"" <= q) by {
      if s == "" {
        assert |q| == 2;
      } else {
        assert "\"\"\""[1] == '\"';
      }
    }
  }

  lemma ListRoundTrip(items: seq<string>)
    ensures ReadValue("[" + Items(items) + "]") == if forall k | 0 <= k < |items| :: NoDelete(items[k]) then Some((List(items), "")) else None
  {
    hide Items, ReadItems, NoDelete, ReadValue;
    var q := "[" + Items(items) + "]";
    assert q[0] == '[' && q[1..] == Items(items) + "]";
    ReadsList(q);
    if items == [] {
      NoItemsRead();
    } else {
      ItemsRoundTrip(items);
    }
  }

  lemma ReadsList(s: string)
    requires s != "" && s[0] == '['
    ensures ReadValue(s) == match ReadItems(s[1..]) case None => None case Some((items, rest)) => Some((List(items), rest))
  {
    hide ReadItems, ReadNumber, ReadBasic;
    assert !("true" <= s) && !("false" <= s);
  }

  lemma NoItemsRead()
    ensures ReadItems(Items([]) + "]") == Some(([], ""))
  {
    assert Items([]) + "]" == "]" && SkipBlank("]") == "]" && "]"[1..] == "";
  }

  // ---------------------------------------------------------------------------------------------
  // Reading looks no further than the value
  // ---------------------------------------------------------------------------------------------

  function Cut(s: string, k: nat): string
    requires k <= |s|
  {
    s[..|s| - k]
  }

  lemma ReadCharLocal(s: string, k: nat)
    requires s != "" && ReadChar(s).Some? && ReadChar(s).value.1 <= |s| - k && k <= |s|
    ensures Cut(s, k) != "" && ReadChar(Cut(s, k)) == ReadChar(s)
  {
    if |Cut(s, k)| >= 6 && s[1] == 'u' {
      assert Cut(s, k)[2..6] == s[2..6];
    }
  }

  lemma {:induction false} ReadBasicLocal(s: string, k: nat)
    requires ReadBasic(s).Some? && k <= |ReadBasic(s).value.1|
    ensures ReadBasic(Cut(s, k)) == Some((ReadBasic(s).value.0, Cut(ReadBasic(s).value.1, k)))
    decreases |s|
  {
    if s[0] == '\"' {
      assert Cut(s, k)[1..] == Cut(s[1..], k);
    } else {
      var n := ReadChar(s).value.1;
      hide ReadChar;
      ReadBasicLocal(s[n..], k);
      ReadCharLocal(s, k);
      assert Cut(s, k)[n..] == Cut(s[n..], k);
    }
  }

  lemma {:induction false} SkipBlankLocal(s: string, k: nat)
    requires k <= |SkipBlank(s)|
    ensures SkipBlank(Cut(s, k)) == Cut(SkipBlank(s), k) || SkipBlank(s) == ""  || k == |SkipBlank(s)|
    decreases |s|
  {
    if s != "" && IsBlank(s[0]) {
      SkipBlankLocal(s[1..], k);
      if |s| > k {
        assert Cut(s, k)[1..] == Cut(s[1..], k);
      }
    }
  }

  lemma {:induction false} ReadItemsLocal(s: string, k: nat)
    requires ReadItems(s).Some? && k <= |ReadItems(s).value.1|
    ensures ReadItems(Cut(s, k)) == Some((ReadItems(s).value.0, Cut(ReadItems(s).value.1, k)))
    decreases |s|
  {
    hide ReadBasic;
    var t := SkipBlank(s);
    SkipBlankLocal(s, k);
    if t[0] == ']' {
      assert Cut(t, k)[1..] == Cut(t[1..], k);
    } else {
      var rest := ReadBasic(t[1..]).value.1;
      var u := SkipBlank(rest);
      assert Cut(t, k)[1..] == Cut(t[1..], k);
      ReadBasicLocal(t[1..], k);
      SkipBlankLocal(rest, k);
      assert Cut(u, k)[1..] == Cut(u[1..], k);
      if u[0] != ']' {
        ReadItemsLocal(u[1..], k);
      }
    }
  }

  lemma {:induction false} NumberRunLocal(s: string, k: nat)
    requires k <= |s| - NumberRun(s)
    ensures NumberRun(Cut(s, k)) == NumberRun(s)
    decreases |s|
  {
    if s != "" && IsNumberChar(s[0]) {
      NumberRunLocal(s[1..], k);
      assert Cut(s, k)[1..] == Cut(s[1..], k);
    }
  }

  lemma ReadNumberLocal(s: string, k: nat)
    requires ReadNumber(s).Some? && k <= |ReadNumber(s).value.1|
    ensures ReadNumber(Cut(s, k)) == Some((ReadNumber(s).value.0, Cut(ReadNumber(s).value.1, k)))
  {
    hide IsInteger, IsFloatToken, IntegerValue;
    NumberRunLocal(s, k);
    var n := NumberRun(s);
    assert Cut(s, k)[..n] == s[..n] && Cut(s, k)[n..] == Cut(s[n..], k);
  }

  lemma ReadValueLocal(s: string, k: nat)
    requires ReadValue(s).Some? && k <= |ReadValue(s).value.1|
    ensures ReadValue(Cut(s, k)) == Some((ReadValue(s).value.0, Cut(ReadValue(s).value.1, k)))
  {
    hide ReadBasic, ReadItems, ReadNumber;
    var t := Cut(s, k);
    if "true" <= s {
      assert t[..4] == s[..4] && t[4..] == Cut(s[4..], k);
    } else if "false" <= s {
      assert t[..5] == s[..5] && t[5..] == Cut(s[5..], k);
      assert !("true" <= t);
    } else if s[0] == '\"' {
      ReadBasicLocal(s[1..], k);
      assert t[1..] == Cut(s[1..], k);
      assert !("\"\"\"" <= t);
    } else if s[0] == '[' {
      ReadItemsLocal(s[1..], k);
      assert t[1..] == Cut(s[1..], k);
    } else {
      ReadNumberLocal(s, k);
      assert !("true" <= t) && !("false" <= t);
    }
  }
}
