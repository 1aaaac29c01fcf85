/** The life of a hook capture: captured once into the inbox, reviewed once, archived when resolved. */
module HookCaptures {
  import opened Wrappers
  import opened PyText
  import opened FrontMatter
  import opened FrontBlock

  // ---------------------------------------------------------------------------------------------
  // Captures
  // ---------------------------------------------------------------------------------------------

  /** A Markdown file of the inbox by its name: a capture, or a file that something else put there. */
  datatype Name = Capture(stamp: string, provider: string, event: string, digest: string) | Foreign(name: string)

  /** The front matter block, and everything behind it. */
  datatype File = File(block: Block, body: string)

  datatype State = State(inbox: map<Name, File>, archive: map<(string, Name), File>)

  /** JSON as another module decodes it, where a text is not plain. */
  datatype Json = Json(decode: string -> Option<string>)

  datatype Scalar = Text(text: string) | Flag(flag: bool) | Other(raw: string)

  predicate IsPlain(s: string) {
    forall k | 0 <= k < |s| :: ' ' <= s[k] <= '~' && s[k] != '\"' && s[k] != '\\'
  }

  function Lower(s: string): string {
    if s == "" then ""
    else [if 'A' <= s[0] <= 'Z' then ((s[0] as int) + 32) as char else s[0]] + Lower(s[1..])
  }

  predicate Enclosed(s: string, open: char, close: char) {
    s != "" && s[0] == open && s[|s| - 1] == close
  }

  function Inner(s: string): string {
    if |s| < 2 then "" else s[1..|s| - 1]
  }

  predicate AllDigits(s: string) {
    s != "" && forall k | 0 <= k < |s| :: '0' <= s[k] <= '9'
  }

  predicate IsNumeral(t: string) {
    AllDigits(t) || exists k :: 0 <= k < |t| && t[k] == '.' && AllDigits(t[..k]) && AllDigits(t[k + 1..])
  }

  predicate IsNumber(s: string) {
    IsNumeral(if s != "" && s[0] == '-' then s[1..] else s)
  }

  /** `s.replace("''", "'")` */
  function Undoubled(s: string): string {
    if s == "" then ""
    else if |s| >= 2 && s[0] == '\'' && s[1] == '\'' then "'" + Undoubled(s[2..])
    else [s[0]] + Undoubled(s[1..])
  }

  /** The value of a front matter field; numbers, lists and null as they are written. */
  function ScalarOf(j: Json, raw: string): Scalar {
    if Enclosed(raw, '[', ']') then Other(raw)
    else if Enclosed(raw, '\"', '\"') then
      if |raw| >= 2 && IsPlain(Inner(raw)) then Text(Inner(raw))
      else match j.decode(raw)
        case Some(text) => Text(text)
        case None => Text(Inner(raw))
    else if Enclosed(raw, '\'', '\'') then Text(Undoubled(Inner(raw)))
    else if Lower(raw) == "true" then Flag(true)
    else if Lower(raw) == "false" then Flag(false)
    else if Lower(raw) == "null" || raw == "~" || IsNumber(raw) then Other(raw)
    else Text(raw)
  }

  function FieldOf(j: Json, front: Front, key: string): Scalar {
    if key in front && front[key].Raw? then ScalarOf(j, front[key].text) else Other("")
  }

  const STATUSES: set<string> := {"reviewed", "rejected", "dismissed"}

  predicate IsResolved(status: string) {
    status in STATUSES
  }

  function Status(j: Json, front: Front): string {
    var value := match FieldOf(j, front, "review_status") case Text(s) => Lower(Strip(s)) case _ => "";
    if IsResolved(value) then value
    else if FieldOf(j, front, "reviewed") == Flag(true) then "reviewed"
    else "pending"
  }

  const CODEX_EVENTS: set<string> := {"UserPromptSubmit", "PreCompact", "PostCompact", "Stop"}
  const CLAUDE_EVENTS: set<string> := {"UserPromptSubmit", "SessionStart", "PreCompact", "Stop", "SubagentStop", "Notification"}

  predicate Supported(provider: string, event: string) {
    (provider == "codex" && event in CODEX_EVENTS) || (provider == "claude" && event in CLAUDE_EVENTS)
  }

  function Ref(provider: string, event: string): string {
    "hook:" + provider + ":" + event
  }

  /** `hook:<provider>:<event>`, for a known hook. */
  function SplitRef(ref: string): Option<(string, string)> {
    var c := Colon(ref);
    if c == |ref| || ref[..c] != "hook" then None
    else
      var rest := ref[c + 1..];
      var d := Colon(rest);
      if d == |rest| then None
      else
        var provider, event := Strip(Lower(rest[..d])), rest[d + 1..];
        if Supported(provider, event) then Some((provider, event)) else None
  }

  /** The hook that made a capture, by its source reference. */
  function ProviderEvent(j: Json, front: Front): Option<(string, string)> {
    if "source" !in front || !front["source"].Nested? || "ref" !in front["source"].fields then None
    else match ScalarOf(j, front["source"].fields["ref"])
      case Text(ref) => SplitRef(ref)
      case _ => None
  }

  /** The front matter of a capture, if its block is accepted and names a hook. */
  function FrontOf(j: Json, f: File): Option<Front> {
    match BlockFront(f.block)
    case None => None
    case Some(front) => if ProviderEvent(j, front).Some? then Some(front) else None
  }

  ghost predicate Resolved(j: Json, f: File) {
    FrontOf(j, f).Some? && IsResolved(Status(j, FrontOf(j, f).value))
  }

  // ---------------------------------------------------------------------------------------------
  // Capturing
  // ---------------------------------------------------------------------------------------------

  predicate Holds(inbox: map<Name, File>, provider: string, event: string, digest: string) {
    exists n :: n in inbox && n.Capture? && n.provider == provider && n.event == event && n.digest == digest
  }

  predicate AtCapacity(inbox: map<Name, File>, maxPending: Option<int>) {
    maxPending.Some? && (maxPending.value <= 0 || |inbox| >= maxPending.value)
  }

  /** A payload that is new, within capacity and not objected to by the scan becomes a file. */
  function Captured(s: State, name: Name, file: File, maxPending: Option<int>, flagged: bool): State
    requires name.Capture?
  {
    if !Supported(name.provider, name.event) || Holds(s.inbox, name.provider, name.event, name.digest)
       || AtCapacity(s.inbox, maxPending) || flagged
    then s
    else s.(inbox := s.inbox[name := file])
  }

  // ---------------------------------------------------------------------------------------------
  // Reviewing
  // ---------------------------------------------------------------------------------------------

  function HexDigit(n: nat): char
    requires n < 16
  {
    if n < 10 then ('0' as int + n) as char else ('a' as int + n - 10) as char
  }

  function Unicode(n: nat): string
    requires n < 0x10000
  {
    "\\u" + [HexDigit(n / 0x1000), HexDigit(n / 0x100 % 0x10), HexDigit(n / 0x10 % 0x10), HexDigit(n % 0x10)]
  }

  /** What `json.dumps` makes of a character: all that is not printable ASCII is escaped. */
  function Escape(c: char): string {
    var n := c as int;
    if c == '\"' then "\\\""
    else if c == '\\' then "\\\\"
    else if n == 0x08 then "\\b"
    else if n == 0x09 then "\\t"
    else if n == 0x0a then "\\n"
    else if n == 0x0c then "\\f"
    else if n == 0x0d then "\\r"
    else if ' ' <= c <= '~' then [c]
    else if n < 0x10000 then Unicode(n)
    else Unicode(0xd800 + (n - 0x10000) / 0x400) + Unicode(0xdc00 + (n - 0x10000) % 0x400)
  }

  function Escaped(s: string): string {
    if s == "" then "" else Escaped(s[..|s| - 1]) + Escape(s[|s| - 1])
  }

  function Dumped(s: string): string {
    "\"" + Escaped(s) + "\""
  }

  /** `" ".join(parts)` */
  function SpaceJoin(parts: seq<string>): string {
    if parts == [] then "" else if |parts| == 1 then parts[0] else parts[0] + " " + SpaceJoin(parts[1..])
  }

  function WordEnd(s: string): (k: nat)
    ensures k <= |s| && (s != "" && !IsSpace(s[0]) ==> k > 0)
  {
    if s == "" || IsSpace(s[0]) then 0 else 1 + WordEnd(s[1..])
  }

  /** `str.split` */
  function Words(s: string): seq<string>
    decreases |s|
  {
    LstripParts(s);
    var t := Lstrip(s);
    if t == "" then [] else [t[..WordEnd(t)]] + Words(t[WordEnd(t)..])
  }

  /** A value as it is rendered in the front matter. */
  function Rendered(s: string): string {
    Dumped(Strip(SpaceJoin(Splitlines(s))))
  }

  /** The reason with every run of white space made one space. */
  function Squeezed(s: string): string {
    Strip(SpaceJoin(Words(s)))
  }

  datatype Review = Review(status: string, reviewer: string, on: string, reason: string)

  function Ups(r: Review): Updates {
    [("reviewed", "true"), ("review_status", Rendered(Lower(Strip(r.status)))), ("reviewed_by", Rendered(Strip(r.reviewer))),
     ("reviewed_at", Rendered(r.on)), ("review_reason", Rendered(Squeezed(r.reason)))]
  }

  /** A review is accepted for a pending capture, with a known status, a reviewer and a reason. */
  predicate Accepts(j: Json, s: State, name: Name, r: Review, flagged: bool) {
    && IsResolved(Lower(Strip(r.status))) && Strip(r.reviewer) != "" && Squeezed(r.reason) != ""
    && name in s.inbox && FrontOf(j, s.inbox[name]).Some?
    && Status(j, FrontOf(j, s.inbox[name]).value) == "pending" && !flagged
  }

  function Reviewed(j: Json, s: State, name: Name, r: Review, flagged: bool): State {
    if !Accepts(j, s, name, r, flagged) then s
    else
      var f := s.inbox[name];
      s.(inbox := s.inbox[name := File(Rewritten(Ups(r), f.block), f.body)])
  }

  // ---------------------------------------------------------------------------------------------
  // Archiving
  // ---------------------------------------------------------------------------------------------

  /** Filters and age limit of one archive run; `age` is the age in days, today, of what a review date
      can be read from: a text, or the printed form of a number. */
  datatype Selection = Selection(target: string, provider: Option<string>, event: Option<string>, status: Option<string>,
                                 minDays: int, age: Scalar -> Option<int>, limit: int)

  predicate ValidSelection(o: Selection) {
    o.minDays >= 0 && o.limit >= 1 && (o.status.Some? ==> IsResolved(o.status.value))
  }

  predicate Selected(j: Json, o: Selection, front: Front) {
    && var hook := ProviderEvent(j, front);
    && hook.Some? && (o.provider.Some? ==> hook.value.0 == o.provider.value) && (o.event.Some? ==> hook.value.1 == o.event.value)
    && IsResolved(Status(j, front)) && (o.status.Some? ==> Status(j, front) == o.status.value)
    && var age := o.age(FieldOf(j, front, "reviewed_at"));
       age.Some? && age.value >= o.minDays
  }

  predicate Eligible(j: Json, o: Selection, archive: map<(string, Name), File>, name: Name, f: File) {
    FrontOf(j, f).Some? && Selected(j, o, FrontOf(j, f).value) && (o.target, name) !in archive
  }

  function Move(s: State, target: string, name: Name): State
    requires name in s.inbox
  {
    State(s.inbox - {name}, s.archive[(target, name) := s.inbox[name]])
  }

  /** Going through the files in order, moving every eligible one. */
  function Archived(j: Json, o: Selection, s: State, names: seq<Name>): State {
    if names == [] then s
    else
      var before := Archived(j, o, s, names[..|names| - 1]);
      var name := names[|names| - 1];
      if name in before.inbox && Eligible(j, o, before.archive, name, before.inbox[name]) then Move(before, o.target, name) else before
  }

  /** The eligible files. */
  function Candidates(j: Json, o: Selection, s: State, names: seq<Name>): seq<Name> {
    if names == [] then []
    else
      var name := names[|names| - 1];
      Candidates(j, o, s, names[..|names| - 1])
      + if name in s.inbox && Eligible(j, o, s.archive, name, s.inbox[name]) then [name] else []
  }

  /** What an archive run reports: how many files are eligible and how many it moved, and the first of them. */
  datatype Report = Report(eligible: nat, archived: nat, candidates: seq<Name>, moved: seq<Name>)

  function Shown(o: Selection, names: seq<Name>): seq<Name>
    requires o.limit >= 1
  {
    if |names| <= o.limit then names else names[..o.limit]
  }

  ghost predicate Distinct(names: seq<Name>) {
    forall a, b | 0 <= a < b < |names| :: names[a] != names[b]
  }

  /** Directory listing: every file once. */
  ghost predicate Lists(names: seq<Name>, inbox: map<Name, File>) {
    Distinct(names) && (forall n | n in names :: n in inbox) && forall n | n in inbox :: n in names
  }

  // ---------------------------------------------------------------------------------------------
  // What one operation keeps
  // ---------------------------------------------------------------------------------------------

  /** At most one capture of each payload. */
  ghost predicate OneEach(inbox: map<Name, File>) {
    forall a, b | a in inbox && b in inbox && a.Capture? && b.Capture?
                  && a.provider == b.provider && a.event == b.event && a.digest == b.digest :: a == b
  }

  /** From one state to a later one: no file is lost, changed once it is resolved, or overwritten in the archive;
      only resolved files get there; bodies never change. */
  ghost predicate Keeps(j: Json, s: State, t: State) {
    && (forall k | k in s.archive :: k in t.archive && t.archive[k] == s.archive[k])
    && (forall k | k in t.archive && k !in s.archive :: Resolved(j, t.archive[k]))
    && (forall n | n in s.inbox ::
          || (n in t.inbox && t.inbox[n].body == s.inbox[n].body && (Resolved(j, s.inbox[n]) ==> t.inbox[n] == s.inbox[n]))
          || (exists target :: (target, n) in t.archive && (target, n) !in s.archive
                && t.archive[(target, n)].body == s.inbox[n].body
                && (Resolved(j, s.inbox[n]) ==> t.archive[(target, n)] == s.inbox[n])))
  }

  lemma CapturedKeeps(j: Json, s: State, name: Name, file: File, maxPending: Option<int>, flagged: bool)
    requires name.Capture?
    ensures var t := Captured(s, name, file, maxPending, flagged);
            && Keeps(j, s, t) && (OneEach(s.inbox) ==> OneEach(t.inbox))
            && |t.inbox| + |t.archive| == |s.inbox| + |s.archive| + (if t == s then 0 else 1)
            && (t != s && maxPending.Some? ==> |t.inbox| <= maxPending.value)
            && (Holds(s.inbox, name.provider, name.event, name.digest) ==> t == s)
  {
    var t := Captured(s, name, file, maxPending, flagged);
    hide Resolved, Supported;
    if t != s {
      assert name !in s.inbox;
      assert t.inbox.Keys == s.inbox.Keys + {name};
      assert |t.inbox.Keys| == |s.inbox.Keys| + 1;
      assert |t.inbox| == |t.inbox.Keys| && |s.inbox| == |s.inbox.Keys|;
    }
  }

  lemma AcceptedIsPending(j: Json, s: State, name: Name, r: Review, flagged: bool)
    requires Accepts(j, s, name, r, flagged)
    ensures name in s.inbox && !Resolved(j, s.inbox[name])
  {
    hide FrontOf, Status, Lower, Strip, Squeezed;
    assert "pending" !in STATUSES;
  }

  lemma ReviewedKeeps(j: Json, s: State, name: Name, r: Review, flagged: bool)
    ensures var t := Reviewed(j, s, name, r, flagged);
            && Keeps(j, s, t) && t.inbox.Keys == s.inbox.Keys && t.archive == s.archive
            && (forall n | n in s.inbox && n != name :: t.inbox[n] == s.inbox[n])
            && (name in s.inbox ==> t.inbox[name].body == s.inbox[name].body)
  {
    hide Accepts, Resolved, Ups, Rewritten;
    if Accepts(j, s, name, r, flagged) {
      AcceptedIsPending(j, s, name, r, flagged);
    }
  }

  lemma OneLess<K, V>(m: map<K, V>, k: K)
    requires k in m
    ensures |m - {k}| == |m| - 1
  {
    assert (m - {k}).Keys == m.Keys - {k};
    assert |(m - {k}).Keys| == |m.Keys| - 1;
  }

  lemma OneMore<K, V>(m: map<K, V>, k: K, v: V)
    requires k !in m
    ensures |m[k := v]| == |m| + 1
  {
    assert m[k := v].Keys == m.Keys + {k};
    assert |m[k := v].Keys| == |m.Keys| + 1;
  }

  lemma MoveKeeps(j: Json, s: State, target: string, name: Name)
    requires name in s.inbox && (target, name) !in s.archive && Resolved(j, s.inbox[name])
    ensures var t := Move(s, target, name);
            Keeps(j, s, t) && |t.inbox| + |t.archive| == |s.inbox| + |s.archive| && (OneEach(s.inbox) ==> OneEach(t.inbox))
  {
    hide Resolved;
    OneLess(s.inbox, name);
    OneMore(s.archive, (target, name), s.inbox[name]);
  }

  lemma KeepsThrough(j: Json, s: State, t: State, u: State)
    requires Keeps(j, s, t) && Keeps(j, t, u)
    ensures Keeps(j, s, u)
  {
    hide Resolved;
    forall n | n in s.inbox
      ensures || (n in u.inbox && u.inbox[n].body == s.inbox[n].body && (Resolved(j, s.inbox[n]) ==> u.inbox[n] == s.inbox[n]))
              || (exists target :: (target, n) in u.archive && (target, n) !in s.archive
                    && u.archive[(target, n)].body == s.inbox[n].body
                    && (Resolved(j, s.inbox[n]) ==> u.archive[(target, n)] == s.inbox[n]))
    {
      if n in t.inbox && t.inbox[n].body == s.inbox[n].body && (Resolved(j, s.inbox[n]) ==> t.inbox[n] == s.inbox[n]) {
        if n !in u.inbox || u.inbox[n].body != t.inbox[n].body || !(Resolved(j, t.inbox[n]) ==> u.inbox[n] == t.inbox[n]) {
          var target :| (target, n) in u.archive && (target, n) !in t.archive && u.archive[(target, n)].body == t.inbox[n].body
                        && (Resolved(j, t.inbox[n]) ==> u.archive[(target, n)] == t.inbox[n]);
        }
      } else {
        var target :| (target, n) in t.archive && (target, n) !in s.archive && t.archive[(target, n)].body == s.inbox[n].body
                      && (Resolved(j, s.inbox[n]) ==> t.archive[(target, n)] == s.inbox[n]);
        assert u.archive[(target, n)] == t.archive[(target, n)];
      }
    }
  }

  lemma EligibleIsResolved(j: Json, o: Selection, archive: map<(string, Name), File>, name: Name, f: File)
    requires Eligible(j, o, archive, name, f)
    ensures Resolved(j, f)
  {
    hide FrontOf, Status, IsResolved;
  }

  lemma {:induction false} ArchivedKeeps(j: Json, o: Selection, s: State, names: seq<Name>)
    ensures var t := Archived(j, o, s, names);
            Keeps(j, s, t) && |t.inbox| + |t.archive| == |s.inbox| + |s.archive| && (OneEach(s.inbox) ==> OneEach(t.inbox))
    decreases |names|
  {
    if names == [] {
      KeepsItself(j, s);
    } else {
      hide Keeps, OneEach, Eligible, Move;
      var before := Archived(j, o, s, names[..|names| - 1]);
      var name := names[|names| - 1];
      ArchivedKeeps(j, o, s, names[..|names| - 1]);
      if name in before.inbox && Eligible(j, o, before.archive, name, before.inbox[name]) {
        EligibleIsResolved(j, o, before.archive, name, before.inbox[name]);
        EligibleIsNew(j, o, before.archive, name, before.inbox[name]);
        MoveKeeps(j, before, o.target, name);
        KeepsThrough(j, s, before, Move(before, o.target, name));
      }
    }
  }

  lemma EligibleIsNew(j: Json, o: Selection, archive: map<(string, Name), File>, name: Name, f: File)
    requires Eligible(j, o, archive, name, f)
    ensures (o.target, name) !in archive
  {
  }

  lemma KeepsItself(j: Json, s: State)
    ensures Keeps(j, s, s)
  {
  }

  /** Applying moves exactly the eligible files. */
  lemma {:induction false} MovesCandidates(j: Json, o: Selection, s: State, names: seq<Name>)
    requires Distinct(names)
    ensures var t, moved := Archived(j, o, s, names), Candidates(j, o, s, names);
            && (forall n :: n in t.inbox <==> n in s.inbox && n !in moved)
            && (forall n | n in t.inbox :: t.inbox[n] == s.inbox[n])
            && (forall k :: k in t.archive <==> k in s.archive || (k.0 == o.target && k.1 in moved))
            && (forall n | n in moved :: n in names && n in s.inbox && t.archive[(o.target, n)] == s.inbox[n])
            && Distinct(moved)
    decreases |names|
  {
    hide FrontOf, Selected;
    if names != [] {
      var last := |names| - 1;
      MovesCandidates(j, o, s, names[..last]);
      var before, moved := Archived(j, o, s, names[..last]), Candidates(j, o, s, names[..last]);
      assert names[last] !in names[..last];
    }
  }

  /** The list that is shown is what applying moves if and only if there are not more eligible files than the limit. */
  lemma ListedExactly(j: Json, o: Selection, s: State, names: seq<Name>)
    requires Distinct(names) && ValidSelection(o)
    ensures var t := Archived(j, o, s, names);
            (forall n :: n in Shown(o, Candidates(j, o, s, names)) <==> n in s.inbox && n !in t.inbox)
            <==> |Candidates(j, o, s, names)| <= o.limit
  {
    hide Eligible, Archived, Candidates;
    MovesCandidates(j, o, s, names);
    var all := Candidates(j, o, s, names);
    if |all| > o.limit {
      assert all[o.limit] in all && all[o.limit] !in all[..o.limit];
    }
  }

  function Copies(n: nat): seq<Name> {
    seq(n, k requires 0 <= k < n => Capture("", "", "", seq(k, i => 'x')))
  }

  function Filled(names: seq<Name>, f: File): State {
    State(map n | n in names :: f, map[])
  }

  /** Applying moves a file that is not listed. */
  ghost predicate MovesMore(j: Json, o: Selection, s: State, names: seq<Name>)
    requires o.limit >= 1
  {
    exists n :: n in s.inbox && n !in Archived(j, o, s, names).inbox && n !in Shown(o, Candidates(j, o, s, names))
  }

  /** For every limit, an inbox with one eligible file more. */
  lemma LongArchive(j: Json, o: Selection, f: File)
    requires ValidSelection(o) && FrontOf(j, f).Some? && Selected(j, o, FrontOf(j, f).value)
    ensures var names := Copies(o.limit + 1);
            && Lists(names, Filled(names, f).inbox) && Candidates(j, o, Filled(names, f), names) == names
            && MovesMore(j, o, Filled(names, f), names)
  {
    hide Archived, Candidates, Eligible, Copies, Lists, MovesMore, Filled, Shown, Selected, FrontOf;
    var names := Copies(o.limit + 1);
    var s := Filled(names, f);
    CopiesDiffer(o.limit + 1);
    EligibleCopy(j, o, f);
    FilledWith(names, f);
    AllEligible(j, o, s, names);
    ListsCopies(names, s.inbox);
    OneTooMany(j, o, s, names);
  }

  lemma FilledWith(names: seq<Name>, f: File)
    ensures var s := Filled(names, f); s.archive == map[] && (forall n :: n in s.inbox <==> n in names) && forall n | n in names :: s.inbox[n] == f
  {
  }

  lemma OneTooMany(j: Json, o: Selection, s: State, names: seq<Name>)
    requires o.limit >= 1 && Distinct(names) && |names| == o.limit + 1 && Candidates(j, o, s, names) == names
    requires forall n :: n in s.inbox <==> n in names
    ensures MovesMore(j, o, s, names)
  {
    hide Archived, Candidates;
    MovesCandidates(j, o, s, names);
    var last := names[o.limit];
    assert last in names && last !in names[..o.limit];
  }

  lemma ListsCopies(names: seq<Name>, inbox: map<Name, File>)
    requires Distinct(names) && forall n :: n in inbox <==> n in names
    ensures Lists(names, inbox)
  {
  }

  lemma EligibleCopy(j: Json, o: Selection, f: File)
    requires FrontOf(j, f).Some? && Selected(j, o, FrontOf(j, f).value)
    ensures forall n :: Eligible(j, o, map[], n, f)
  {
    hide FrontOf, Selected;
  }

  lemma CopiesDiffer(n: nat)
    ensures |Copies(n)| == n && Distinct(Copies(n))
  {
    assert forall a | 0 <= a < n :: |Copies(n)[a].digest| == a;
  }

  lemma {:induction false} AllEligible(j: Json, o: Selection, s: State, names: seq<Name>)
    requires forall n | n in names :: n in s.inbox && Eligible(j, o, s.archive, n, s.inbox[n])
    ensures Candidates(j, o, s, names) == names
    decreases |names|
  {
    hide Eligible;
    if names != [] {
      var last := |names| - 1;
      AllEligible(j, o, s, names[..last]);
      assert names[..last] + [names[last]] == names;
    }
  }

  // ---------------------------------------------------------------------------------------------
  // The operations on the files
  // ---------------------------------------------------------------------------------------------

  class HookStore {
    const json: Json
    var inbox: map<Name, File>
    var archive: map<(string, Name), File>

    ghost function View(): State
      reads this
    {
      State(inbox, archive)
    }

    /** Search the listing for a capture of this payload. */
    method ExistingHookEvent(names: seq<Name>, provider: string, event: string, digest: string) returns (found: Option<Name>)
      requires Lists(names, inbox)
      ensures found.Some? <==> Holds(inbox, provider, event, digest)
      ensures found.Some? ==> found.value in inbox && found.value.Capture? && found.value.provider == provider
                              && found.value.event == event && found.value.digest == digest
    {
      for k := 0 to |names|
        invariant forall i | 0 <= i < k ::
                    !(names[i].Capture? && names[i].provider == provider && names[i].event == event && names[i].digest == digest)
      {
        if names[k].Capture? && names[k].provider == provider && names[k].event == event && names[k].digest == digest {
          return Some(names[k]);
        }
      }
      return None;
    }

    /** Count the files until the capacity is reached. */
    method HookCaptureAtCapacity(names: seq<Name>, maxPending: int) returns (full: bool)
      requires Lists(names, inbox)
      ensures full == AtCapacity(inbox, Some(maxPending))
    {
      if maxPending <= 0 {
        return true;
      }
      ListingSize(names, inbox);
      var count := 0;
      for k := 0 to |names|
        invariant count == k && count < maxPending
      {
        count := count + 1;
        if count >= maxPending {
          return true;
        }
      }
      return false;
    }

    method CaptureHookEvent(names: seq<Name>, name: Name, file: File, maxPending: Option<int>, flagged: bool) returns (r: Option<Name>)
      requires Lists(names, inbox) && name.Capture?
      modifies this
      ensures View() == Captured(old(View()), name, file, maxPending, flagged)
      ensures r.Some? ==> r.value in inbox && r.value.Capture? && r.value.provider == name.provider
                          && r.value.event == name.event && r.value.digest == name.digest
      ensures r.None? ==> View() == old(View())
    {
      hide Supported, AtCapacity;
      if !Supported(name.provider, name.event) {
        return None;
      }
      var existing := ExistingHookEvent(names, name.provider, name.event, name.digest);
      if existing.Some? {
        return existing;
      }
      NoLimit(inbox);
      if maxPending.Some? {
        var full := HookCaptureAtCapacity(names, maxPending.value);
        if full {
          return None;
        }
      }
      if flagged {
        return None;
      }
      inbox := inbox[name := file];
      return Some(name);
    }

    method ReviewHookCapture(name: Name, review: Review, flagged: bool) returns (ok: bool)
      modifies this
      ensures ok == Accepts(json, old(View()), name, review, flagged)
      ensures View() == Reviewed(json, old(View()), name, review, flagged)
    {
      hide FrontOf, Status, Ups, UpdatedBlock, Squeezed;
      if !IsResolved(Lower(Strip(review.status))) || Strip(review.reviewer) == "" || Squeezed(review.reason) == "" {
        return false;
      }
      if name !in inbox {
        return false;
      }
      var front := FrontOf(json, inbox[name]);
      if front.None? || Status(json, front.value) != "pending" || flagged {
        return false;
      }
      var block := inbox[name].block;
      var fields := UpdateFields(block.fields, Ups(review));
      inbox := inbox[name := File(Block(block.open, fields, block.close, |fields| + 2), inbox[name].body)];
      return true;
    }

    /** One pass over the listing; a dry run only collects, applying also moves. */
    method ArchiveReviewed(names: seq<Name>, o: Selection, apply: bool) returns (r: Option<Report>)
      requires Lists(names, inbox)
      modifies this
      ensures r.Some? <==> o.minDays >= 0 && o.limit >= 1 && (o.status.Some? ==> o.status.value in {"reviewed", "rejected", "dismissed"})
      ensures r.Some? ==>
                var all := Candidates(json, o, old(View()), names);
                r.value == Report(|all|, if apply then |all| else 0, Shown(o, all), if apply then Shown(o, all) else [])
      ensures View() == if r.Some? && apply then Archived(json, o, old(View()), names) else old(View())
    {
      hide Eligible, Archived, Candidates, Lists, Move;
      if !ValidSelection(o) {
        return None;
      }
      ghost var start := View();
      ArchiveStart(json, o, start, names);
      var candidates, archived := [], [];
      for k := 0 to |names|
        invariant candidates == Candidates(json, o, start, names[..k]) && archived == if apply then candidates else []
        invariant View() == if apply then Archived(json, o, start, names[..k]) else start
      {
        ghost var now := View();
        StillThere(json, o, start, now, names, k, candidates);
        ArchiveStep(json, o, start, names, k);
        if Eligible(json, o, archive, names[k], inbox[names[k]]) {
          candidates := candidates + [names[k]];
          if apply {
            inbox, archive := inbox - {names[k]}, archive[(o.target, names[k]) := inbox[names[k]]];
            archived := archived + [names[k]];
            MoveIs(now, o.target, names[k]);
          }
        }
      }
      assert names[..|names|] == names;
      LimitIsPositive(o);
      return Some(Report(|candidates|, |archived|, Shown(o, candidates), Shown(o, archived)));
    }
  }

  lemma LimitIsPositive(o: Selection)
    requires ValidSelection(o)
    ensures o.limit >= 1
  {
  }

  lemma ArchiveStart(j: Json, o: Selection, s: State, names: seq<Name>)
    ensures Archived(j, o, s, names[..0]) == s && Candidates(j, o, s, names[..0]) == []
  {
  }

  lemma ArchiveStep(j: Json, o: Selection, s: State, names: seq<Name>, k: nat)
    requires k < |names|
    ensures var before := Archived(j, o, s, names[..k]);
            Archived(j, o, s, names[..k + 1]) ==
              if names[k] in before.inbox && Eligible(j, o, before.archive, names[k], before.inbox[names[k]])
              then Move(before, o.target, names[k]) else before
    ensures Candidates(j, o, s, names[..k + 1]) ==
              Candidates(j, o, s, names[..k])
              + if names[k] in s.inbox && Eligible(j, o, s.archive, names[k], s.inbox[names[k]]) then [names[k]] else []
  {
    hide Eligible;
    assert names[..k + 1][..k] == names[..k];
  }

  lemma MoveIs(s: State, target: string, name: Name)
    requires name in s.inbox
    ensures Move(s, target, name) == State(s.inbox - {name}, s.archive[(target, name) := s.inbox[name]])
  {
  }

  lemma NoLimit(inbox: map<Name, File>)
    ensures !AtCapacity(inbox, None)
  {
  }

  lemma ListingSize(names: seq<Name>, inbox: map<Name, File>)
    requires Lists(names, inbox)
    ensures |names| == |inbox|
  {
    DistinctSize(names);
    assert (set n | n in names) == inbox.Keys;
  }

  lemma {:induction false} DistinctSize(names: seq<Name>)
    requires Distinct(names)
    ensures |set n | n in names| == |names|
    decreases |names|
  {
    if names != [] {
      var last := |names| - 1;
      DistinctSize(names[..last]);
      assert (set n | n in names) == (set n | n in names[..last]) + {names[last]};
      assert names[last] !in names[..last];
    }
  }

  /** The file the pass has come to is still where it was, and no archive entry stands in its way but an old one. */
  lemma StillThere(j: Json, o: Selection, start: State, now: State, names: seq<Name>, k: nat, moved: seq<Name>)
    requires Lists(names, start.inbox) && k < |names| && moved == Candidates(j, o, start, names[..k])
    requires now == start || now == Archived(j, o, start, names[..k])
    ensures names[k] in start.inbox && names[k] in now.inbox && now.inbox[names[k]] == start.inbox[names[k]]
    ensures Eligible(j, o, now.archive, names[k], now.inbox[names[k]]) == Eligible(j, o, start.archive, names[k], start.inbox[names[k]])
  {
    hide FrontOf, Selected, Archived, Candidates;
    assert Distinct(names[..k]);
    MovesCandidates(j, o, start, names[..k]);
    assert names[k] in names && names[k] !in names[..k];
  }

  // ---------------------------------------------------------------------------------------------
  // Whole lives
  // ---------------------------------------------------------------------------------------------

  datatype Op =
    | DoCapture(name: Name, file: File, maxPending: Option<int>, flagged: bool)
    | DoReview(name: Name, review: Review, flagged: bool)
    | DoArchive(names: seq<Name>, selection: Selection)

  ghost predicate Legal(s: State, op: Op) {
    match op
    case DoCapture(name, _, _, _) => name.Capture?
    case DoReview(_, _, _) => true
    case DoArchive(names, o) => Lists(names, s.inbox) && ValidSelection(o)
  }

  function Done(j: Json, s: State, op: Op): State
    requires op.DoCapture? ==> op.name.Capture?
  {
    match op
    case DoCapture(name, file, maxPending, flagged) => Captured(s, name, file, maxPending, flagged)
    case DoReview(name, review, flagged) => Reviewed(j, s, name, review, flagged)
    case DoArchive(names, o) => Archived(j, o, s, names)
  }

  ghost predicate Runs(j: Json, s: State, ops: seq<Op>, t: State)
    decreases |ops|
  {
    if ops == [] then s == t else Legal(s, ops[0]) && Runs(j, Done(j, s, ops[0]), ops[1..], t)
  }

  /** How many captures were made: operations that added a file. */
  ghost function Made(j: Json, s: State, ops: seq<Op>): nat
    decreases |ops|
  {
    if ops == [] || !Legal(s, ops[0]) then 0
    else
      var next := Done(j, s, ops[0]);
      (if ops[0].DoCapture? && next != s then 1 else 0) + Made(j, next, ops[1..])
  }

  lemma StepKeeps(j: Json, s: State, op: Op)
    requires Legal(s, op)
    ensures var t := Done(j, s, op);
            && Keeps(j, s, t) && (OneEach(s.inbox) ==> OneEach(t.inbox))
            && |t.inbox| + |t.archive| == |s.inbox| + |s.archive| + if op.DoCapture? && t != s then 1 else 0
  {
    hide Keeps, Captured, Reviewed, Archived;
    match op
    case DoCapture(name, file, maxPending, flagged) => CapturedKeeps(j, s, name, file, maxPending, flagged);
    case DoReview(name, review, flagged) =>
      ReviewedKeeps(j, s, name, review, flagged);
      var t := Reviewed(j, s, name, review, flagged);
      assert |t.inbox| == |t.inbox.Keys| && |s.inbox| == |s.inbox.Keys|;
    case DoArchive(names, o) => ArchivedKeeps(j, o, s, names);
  }

  /** Over every life of captures, reviews and archive runs: inbox and archive together hold what they held before
      and every capture made; a payload has at most one file in the inbox; no resolved file ever changes, no body
      ever changes, nothing in the archive is overwritten, and only resolved captures get there. */
  lemma {:induction false} LifeOfCaptures(j: Json, s: State, ops: seq<Op>, t: State)
    requires Runs(j, s, ops, t) && OneEach(s.inbox)
    ensures Keeps(j, s, t) && OneEach(t.inbox)
    ensures |t.inbox| + |t.archive| == |s.inbox| + |s.archive| + Made(j, s, ops)
    decreases |ops|
  {
    if ops == [] {
      KeepsItself(j, s);
    } else {
      hide Keeps, OneEach, Legal, Done;
      var next := Done(j, s, ops[0]);
      StepKeeps(j, s, ops[0]);
      LifeOfCaptures(j, next, ops[1..], t);
      KeepsThrough(j, s, next, t);
    }
  }

  // ---------------------------------------------------------------------------------------------
  // Rendering
  // ---------------------------------------------------------------------------------------------

  predicate Printable(s: string) {
    forall k | 0 <= k < |s| :: ' ' <= s[k] <= '~'
  }

  lemma EscapeIsPrintable(c: char)
    ensures Printable(Escape(c)) && Escape(c) != ""
    ensures ' ' <= c <= '~' && c != '\"' && c != '\\' ==> Escape(c) == [c]
    ensures 0x7f <= c as int < 0x10000 ==> |Escape(c)| == 6
  {
    forall n | 0 <= n < 0x10000
      ensures Printable(Unicode(n))
    {
    }
  }

  lemma {:induction false} EscapedIsPrintable(s: string)
    ensures Printable(Escaped(s)) && (IsPlain(s) ==> Escaped(s) == s)
    decreases |s|
  {
    hide Escape;
    if s != "" {
      var n := |s| - 1;
      EscapedIsPrintable(s[..n]);
      EscapeIsPrintable(s[n]);
      assert Escaped(s) == Escaped(s[..n]) + Escape(s[n]);
      assert forall k | 0 <= k < n :: s[..n][k] == s[k];
      assert s == s[..n] + [s[n]];
    }
  }

  lemma {:induction false} PrintableBytes(s: string)
    requires Printable(s)
    ensures Bytes(s) == |s| && BreakFree(s)
    decreases |s|
  {
    if s != "" {
      PrintableBytes(s[..|s| - 1]);
    }
  }

  lemma DumpedSound(key: string, s: string)
    requires key != "" && ':' !in key && key[0] != '#' && !IsSpace(key[0]) && !IsSpace(key[|key| - 1]) && BreakFree(key)
    ensures Sound(key, Dumped(s))
  {
    EscapedIsPrintable(s);
    var v := Dumped(s);
    assert v[0] == '\"' && v[|v| - 1] == '\"';
    assert Printable(v);
    PrintableBytes(v);
  }

  const REVIEW_KEYS: seq<string> := ["reviewed", "review_status", "reviewed_by", "reviewed_at", "review_reason"]

  lemma ReviewKeysAreKeys()
    ensures forall k | 0 <= k < |REVIEW_KEYS| ::
              var key := REVIEW_KEYS[k]; key != "" && ':' !in key && key[0] != '#' && !IsSpace(key[0]) && !IsSpace(key[|key| - 1])
    ensures forall a, b | 0 <= a < b < |REVIEW_KEYS| :: REVIEW_KEYS[a] != REVIEW_KEYS[b]
  {
  }

  lemma ReviewKeysAreOneLine()
    ensures forall k | 0 <= k < |REVIEW_KEYS| :: BreakFree(REVIEW_KEYS[k])
  {
    assert Printable("reviewed") && Printable("review_status") && Printable("reviewed_by");
    assert Printable("reviewed_at") && Printable("review_reason");
    forall k | 0 <= k < |REVIEW_KEYS|
      ensures Printable(REVIEW_KEYS[k])
    {
    }
    hide Printable, BreakFree;
    forall k | 0 <= k < |REVIEW_KEYS|
      ensures BreakFree(REVIEW_KEYS[k])
    {
      PrintableBytes(REVIEW_KEYS[k]);
    }
  }

  lemma UpsAre(r: Review)
    ensures |Ups(r)| == |REVIEW_KEYS|
    ensures forall k | 0 <= k < |REVIEW_KEYS| :: Ups(r)[k].0 == REVIEW_KEYS[k]
    ensures Ups(r)[0].1 == "true" && Ups(r)[1].1 == Rendered(Lower(Strip(r.status)))
    ensures forall k | 1 <= k < |REVIEW_KEYS| :: exists s :: Ups(r)[k].1 == Dumped(s)
  {
    hide Dumped, Lower, Strip, SpaceJoin, Splitlines, Squeezed;
  }

  lemma UpsSound(r: Review)
    ensures SoundUpdates(Ups(r)) && |Ups(r)| == |REVIEW_KEYS|
    ensures forall k | 0 <= k < |REVIEW_KEYS| :: Ups(r)[k].0 == REVIEW_KEYS[k]
  {
    hide Ups, Dumped, IsSpace, Sound;
    ReviewKeysAreKeys();
    ReviewKeysAreOneLine();
    UpsAre(r);
    TrueIsSound();
    forall k | 0 <= k < |REVIEW_KEYS|
      ensures Sound(Ups(r)[k].0, Ups(r)[k].1)
    {
      if k > 0 {
        var s :| Ups(r)[k].1 == Dumped(s);
        DumpedSound(REVIEW_KEYS[k], s);
      } else {
        assert REVIEW_KEYS[0] == "reviewed";
      }
    }
  }

  lemma TrueIsSound()
    ensures Sound("reviewed", "true")
  {
    assert Printable("reviewed") && Printable("true");
    PrintableBytes("reviewed");
    PrintableBytes("true");
  }

  predicate IsWord(s: string) {
    s != "" && forall k | 0 <= k < |s| :: 'a' <= s[k] <= 'z'
  }

  lemma StatusIsWord(status: string)
    requires IsResolved(status)
    ensures IsWord(status)
  {
    assert IsWord("reviewed") && IsWord("rejected") && IsWord("dismissed");
    assert status == "reviewed" || status == "rejected" || status == "dismissed";
  }

  lemma {:induction false} WordLower(s: string)
    requires s == "" || IsWord(s)
    ensures Lower(s) == s
    decreases |s|
  {
    if s != "" {
      WordLower(s[1..]);
      assert [s[0]] + s[1..] == s;
    }
  }

  /** A text without white space is rendered as it is, and a reason that is one word stays so. */
  lemma SolidStays(s: string)
    requires s != "" && forall k | 0 <= k < |s| :: !IsSpace(s[k])
    ensures Rendered(s) == Dumped(s) && Squeezed(s) == s
  {
    hide Dumped;
    assert Splitlines(s) == [s] by {
      assert BreakFree(s);
      OneLine(s);
    }
    StripSound(s);
    WholeWord(s);
    assert Lstrip(s) == s;
    assert s[|s|..] == "" && s[..|s|] == s;
    assert Words("") == [];
  }

  lemma {:induction false} WholeWord(s: string)
    requires forall k | 0 <= k < |s| :: !IsSpace(s[k])
    ensures WordEnd(s) == |s|
    decreases |s|
  {
    hide IsSpace;
    if s != "" {
      WholeWord(s[1..]);
    }
  }

  lemma StatusReadsBack(j: Json, status: string)
    requires IsResolved(status)
    ensures ScalarOf(j, Rendered(status)) == Text(status) && Lower(Strip(status)) == status
  {
    hide IsResolved, Lower, Strip, ScalarOf, IsPlain, Rendered;
    StatusIsWord(status);
    WordLower(status);
    WordIsPlain(status);
    WordIsSolid(status);
    EscapedIsPrintable(status);
    QuotedReads(j, status);
  }

  lemma WordIsSolid(s: string)
    requires IsWord(s)
    ensures Rendered(s) == Dumped(s)
  {
    SolidStays(s);
  }

  lemma WordIsPlain(s: string)
    requires IsWord(s)
    ensures IsPlain(s) && Strip(s) == s
  {
    StripSound(s);
    hide Strip;
  }

  /** A plain text in double quotes reads back as itself. */
  lemma QuotedReads(j: Json, s: string)
    requires IsPlain(s)
    ensures ScalarOf(j, "\"" + s + "\"") == Text(s)
  {
    var v := "\"" + s + "\"";
    assert v[0] == '\"' && v[|v| - 1] == '\"' && Inner(v) == s;
    hide Lower, IsPlain, IsNumber, Inner;
  }

  // ---------------------------------------------------------------------------------------------
  // When a review takes effect
  // ---------------------------------------------------------------------------------------------

  /** All fields of the review are set, and nothing else is changed. */
  ghost predicate TakesEffect(j: Json, r: Review, before: File, after: File) {
    FrontOf(j, before).Some? && Sets(Ups(r), FrontOf(j, before).value, FrontOf(j, after))
  }

  /** Whether it does can be told from the old block and the rendered fields. */
  ghost predicate Feasible(r: Review, b: Block) {
    Size(Rewritten(Ups(r), b)) <= MAX_HOOK_FRONTMATTER_BYTES && Effective(Ups(r), b.fields[..Boundary(b.fields)])
  }

  /** An accepted review takes effect if and only if the new block is not too large and the update is effective; then
      the capture has the chosen status and is one of the same hook. */
  lemma ReviewTakesEffect(j: Json, s: State, name: Name, r: Review, flagged: bool)
    requires Accepts(j, s, name, r, flagged)
    ensures var before, after := s.inbox[name], Reviewed(j, s, name, r, flagged).inbox[name];
            && (TakesEffect(j, r, before, after) <==> Feasible(r, before.block))
            && (TakesEffect(j, r, before, after) ==>
                  && Status(j, FrontOf(j, after).value) == Lower(Strip(r.status))
                  && ProviderEvent(j, FrontOf(j, after).value) == ProviderEvent(j, FrontOf(j, before).value))
  {
    hide Sets, BlockFront, Rewritten, Size, Effective, Status, Boundary, Lower, Strip, IsResolved, Squeezed, ProviderEvent, Ups, SoundUpdates;
    var before, after := s.inbox[name], Reviewed(j, s, name, r, flagged).inbox[name];
    assert after == File(Rewritten(Ups(r), before.block), before.body);
    UpsSound(r);
    RewriteExact(Ups(r), before.block);
    var old' := BlockFront(before.block).value;
    if Sets(Ups(r), old', BlockFront(after.block)) {
      SomeSet(Ups(r), old', BlockFront(after.block));
      EffectIs(j, r, old', BlockFront(after.block).value);
    } else {
      NoneSet(Ups(r), old');
    }
  }

  lemma SomeSet(ups: Updates, before: Front, after: Option<Front>)
    requires Sets(ups, before, after)
    ensures after.Some?
  {
  }

  lemma NoneSet(ups: Updates, before: Front)
    ensures !Sets(ups, before, None)
  {
  }

  lemma EffectIs(j: Json, r: Review, before: Front, after: Front)
    requires Sets(Ups(r), before, Some(after)) && IsResolved(Lower(Strip(r.status)))
    ensures Status(j, after) == Lower(Strip(r.status)) && ProviderEvent(j, after) == ProviderEvent(j, before)
  {
    hide Sets, Lower, Strip, Ups, IsResolved, ScalarOf, SplitRef, Rendered, Status;
    var status := Lower(Strip(r.status));
    UpsSound(r);
    UpsAre(r);
    StatusReadsBack(j, status);
    SourceStays(Ups(r), before, after);
    StatusIs(j, after, status);
  }

  lemma SourceStays(ups: Updates, before: Front, after: Front)
    requires Sets(ups, before, Some(after)) && |ups| == |REVIEW_KEYS| && forall k | 0 <= k < |REVIEW_KEYS| :: ups[k].0 == REVIEW_KEYS[k]
    ensures ("source" in before <==> "source" in after) && ("source" in before ==> after["source"] == before["source"])
    ensures "review_status" in after && after["review_status"] == Raw(ups[1].1)
  {
    assert forall k | 0 <= k < |REVIEW_KEYS| :: REVIEW_KEYS[k] != "source";
    NamedFound(ups, "source");
    assert ups[1].0 == "review_status";
  }

  lemma StatusIs(j: Json, front: Front, status: string)
    requires "review_status" in front && front["review_status"] == Raw(Rendered(status))
    requires ScalarOf(j, Rendered(status)) == Text(status) && Lower(Strip(status)) == status && IsResolved(status)
    ensures Status(j, front) == status
  {
    hide ScalarOf, Lower, Strip, IsResolved;
  }

  // ---------------------------------------------------------------------------------------------
  // Fresh captures
  // ---------------------------------------------------------------------------------------------

  /** The front matter of a new capture: plain fields, the map of its source, and plain fields again. */
  datatype Template = Template(before: Updates, source: Updates, after: Updates)

  function LinesOf(entries: Updates): seq<string> {
    if entries == [] then []
    else LinesOf(entries[..|entries| - 1]) + [Line(entries[|entries| - 1].0, entries[|entries| - 1].1)]
  }

  function IndentedLines(entries: Updates): seq<string> {
    if entries == [] then []
    else IndentedLines(entries[..|entries| - 1]) + ["  " + Line(entries[|entries| - 1].0, entries[|entries| - 1].1)]
  }

  const SOURCE_LINE := "source:"

  function TemplateFields(t: Template): seq<string> {
    LinesOf(t.before) + [SOURCE_LINE] + IndentedLines(t.source) + LinesOf(t.after)
  }

  function FreshBlock(t: Template): Block {
    Block("---", TemplateFields(t), "---", |TemplateFields(t)| + 2)
  }

  /** Fields that say nothing about a review. */
  ghost predicate Silent(entries: Updates) {
    forall k | 0 <= k < |entries| :: Sound(entries[k].0, entries[k].1) && entries[k].0 !in REVIEW_KEYS && entries[k].0 != "source"
  }

  ghost predicate Proper(t: Template, provider: string, event: string) {
    && Silent(t.before) && Silent(t.after) && SoundUpdates(t.source)
    && (exists k :: 0 <= k < |t.source| && t.source[k] == ("ref", "\"" + Ref(provider, event) + "\""))
  }

  /** Fields that are read one after the other set their keys and no others. */
  lemma {:induction false} ReadLines(r: Reading, entries: Updates)
    requires Silent(entries)
    ensures var u := ReadAll(r, LinesOf(entries));
            && u.Some?
            && forall key | key == "source" || key in REVIEW_KEYS ::
                 (key in u.value.front <==> key in r.front) && (key in r.front ==> u.value.front[key] == r.front[key])
    decreases |entries|
  {
    hide Sound, Line, Read, LineSets;
    if entries != [] {
      var n := |entries| - 1;
      var (key, value) := entries[n];
      SoundSets(key, value);
      ReadLines(r, entries[..n]);
      var m := ReadAll(r, LinesOf(entries[..n])).value;
      LineTaken(m, Line(key, value), key, value);
      var lines := LinesOf(entries);
      assert lines[..|lines| - 1] == LinesOf(entries[..n]);
    }
  }

  lemma IndentedReads(key: string, value: string)
    requires Sound(key, value)
    ensures var line := "  " + Line(key, value);
            HasColon(line) && KeyOf(line) == key && ValueOf(line) == value && !Ignored(line) && Indented(line)
  {
    hide Strip, Line, Sound, Colon;
    SpacedSplits(key, value);
    SpacedLineSets(key, value);
    var inner := " " + Line(key, value);
    var line := "  " + Line(key, value);
    assert line == " " + inner;
    OneSpaceMore(inner);
  }

  /** One more space in front shifts the colon and changes neither half's stripped text. */
  lemma OneSpaceMore(inner: string)
    requires HasColon(inner)
    ensures var line := " " + inner;
            HasColon(line) && KeyOf(line) == KeyOf(inner) && ValueOf(line) == ValueOf(inner) && Strip(line) == Strip(inner)
  {
    hide Strip;
    var line := " " + inner;
    assert forall j | 0 <= j < |inner| :: line[j + 1] == inner[j];
    ColonIs(line, Colon(inner) + 1);
    assert line[..Colon(line)] == " " + inner[..Colon(inner)];
    assert line[Colon(line) + 1..] == inner[Colon(inner) + 1..];
    SpaceBefore(inner[..Colon(inner)]);
    SpaceBefore(inner);
  }

  lemma SpaceBefore(s: string)
    ensures Strip(" " + s) == Strip(s) && AsciiStrip(" " + s) == AsciiStrip(s)
  {
    assert (" " + s)[1..] == s;
  }

  lemma {:induction false} ReadIndented(r: Reading, key: string, entries: Updates)
    requires SoundUpdates(entries)
    requires r.current == Some(key) && key in r.front && r.front[key].Nested?
    ensures var u := ReadAll(r, IndentedLines(entries));
            && u.Some? && u.value.current == Some(key) && key in u.value.front && u.value.front[key].Nested?
            && (forall k | 0 <= k < |entries| ::
                  entries[k].0 in u.value.front[key].fields && u.value.front[key].fields[entries[k].0] == entries[k].1)
            && (forall other | other != key ::
                  (other in u.value.front <==> other in r.front) && (other in r.front ==> u.value.front[other] == r.front[other]))
    decreases |entries|
  {
    hide Sound, Line, Read;
    if entries != [] {
      var n := |entries| - 1;
      var (field, value) := entries[n];
      ReadIndented(r, key, entries[..n]);
      var m := ReadAll(r, IndentedLines(entries[..n])).value;
      IndentedTaken(m, key, field, value);
      var lines := IndentedLines(entries);
      assert lines[..|lines| - 1] == IndentedLines(entries[..n]);
      assert forall k | 0 <= k < n :: entries[..n][k] == entries[k];
    }
  }

  lemma IndentedTaken(m: Reading, key: string, field: string, value: string)
    requires Sound(field, value) && m.current == Some(key) && key in m.front && m.front[key].Nested?
    ensures Read(m, "  " + Line(field, value)) == Some(m.(front := m.front[key := Nested(m.front[key].fields[field := value])]))
  {
    hide Sound, Line, Ignored, Indented, KeyOf, ValueOf, HasColon;
    IndentedReads(field, value);
    SoundNonempty(field, value);
  }

  lemma SourceLineReads()
    ensures HasColon(SOURCE_LINE) && KeyOf(SOURCE_LINE) == "source" && ValueOf(SOURCE_LINE) == ""
    ensures !Ignored(SOURCE_LINE) && !Indented(SOURCE_LINE) && Strip(SOURCE_LINE) != "---"
  {
    ColonIs(SOURCE_LINE, 6);
    assert SOURCE_LINE[..6] == "source" && SOURCE_LINE[7..] == "";
    StripSound("source");
    StripSound(SOURCE_LINE);
    assert Strip("") == "";
  }

  lemma TemplateReads(t: Template, one: Reading, two: Reading, three: Reading, last: Reading)
    requires ReadAll(NOTHING_READ, LinesOf(t.before)) == Some(one) && Read(one, SOURCE_LINE) == Some(two)
    requires ReadAll(two, IndentedLines(t.source)) == Some(three) && ReadAll(three, LinesOf(t.after)) == Some(last)
    ensures ReadAll(NOTHING_READ, TemplateFields(t)) == Some(last)
  {
    hide Read, ReadAll, LinesOf, IndentedLines;
    var front := LinesOf(t.before) + [SOURCE_LINE];
    ReadSingle(one, SOURCE_LINE);
    ReadAppend(NOTHING_READ, LinesOf(t.before), [SOURCE_LINE]);
    ReadAppend(NOTHING_READ, front, IndentedLines(t.source));
    ReadAppend(NOTHING_READ, front + IndentedLines(t.source), LinesOf(t.after));
  }

  lemma SourceOpens(r: Reading)
    ensures Read(r, SOURCE_LINE) == Some(Reading(r.front["source" := Nested(map[])], Some("source")))
  {
    SourceLineReads();
    hide Ignored, Indented, KeyOf, ValueOf, HasColon;
  }

  /** What is read in a new capture: its source, and no word of a review. */
  lemma TemplateParses(t: Template, provider: string, event: string)
    requires Proper(t, provider, event)
    ensures var r := ReadAll(NOTHING_READ, TemplateFields(t));
            && r.Some? && "source" in r.value.front && r.value.front["source"].Nested?
            && "ref" in r.value.front["source"].fields
            && r.value.front["source"].fields["ref"] == "\"" + Ref(provider, event) + "\""
            && forall k | 0 <= k < |REVIEW_KEYS| :: REVIEW_KEYS[k] !in r.value.front
  {
    hide Sound, Read, ReadAll, Silent, LinesOf, IndentedLines, Ref, TemplateFields;
    assert "source" !in REVIEW_KEYS;
    ReadLines(NOTHING_READ, t.before);
    var one := ReadAll(NOTHING_READ, LinesOf(t.before)).value;
    SourceOpens(one);
    var two := Reading(one.front["source" := Nested(map[])], Some("source"));
    ReadIndented(two, "source", t.source);
    var three := ReadAll(two, IndentedLines(t.source)).value;
    ReadLines(three, t.after);
    TemplateReads(t, one, two, three, ReadAll(three, LinesOf(t.after)).value);
  }

  lemma {:induction false} LinesAreFields(entries: Updates)
    requires forall k | 0 <= k < |entries| :: Sound(entries[k].0, entries[k].1)
    ensures |LinesOf(entries)| == |IndentedLines(entries)| == |entries|
    ensures forall k | 0 <= k < |entries| ::
              && LinesOf(entries)[k] == Line(entries[k].0, entries[k].1)
              && IndentedLines(entries)[k] == "  " + Line(entries[k].0, entries[k].1)
    decreases |entries|
  {
    hide Sound, Line;
    if entries != [] {
      LinesAreFields(entries[..|entries| - 1]);
    }
  }

  /** What a line of a new capture may be: one piece, and either indented or a field with a name that no review uses. */
  ghost predicate Passive(line: string) {
    && BreakFree(line) && IsInner(line) && !IsDelimiter(line) && !Ignored(line)
    && (Indented(line) || (HasColon(line) && KeyOf(line) !in REVIEW_KEYS))
  }

  lemma FieldIsPassive(key: string, value: string)
    requires Sound(key, value)
    ensures key !in REVIEW_KEYS ==> Passive(Line(key, value))
  {
    hide Sound, Line, Ignored, Indented, IsDelimiter, IsInner, BreakFree, KeyOf, HasColon;
    LineReads(key, value);
    LineIsField(key, value);
    SoundIsInner(key, value);
    SoundLineIsPiece(key, value);
  }

  lemma IndentedIsPassive(key: string, value: string)
    requires Sound(key, value)
    ensures Passive("  " + Line(key, value))
  {
    hide Sound, Line, Ignored, Indented, IsDelimiter, KeyOf, HasColon, Strip, AsciiStrip, IsBreak;
    IndentedReads(key, value);
    LineReads(key, value);
    SoundIsInner(key, value);
    SoundLineIsPiece(key, value);
    var inner, line := Line(key, value), "  " + Line(key, value);
    ColonIsPart(line);
    SpaceBefore(inner);
    SpaceBefore(" " + inner);
    assert line == " " + (" " + inner);
    SpacedIsPhysical(inner);
    SpacesAreNoBreaks(inner);
    SoundNonempty(key, value);
  }

  lemma SpacedIsPhysical(inner: string)
    requires IsPhysical(inner) && HasColon(inner)
    ensures IsPhysical("  " + inner)
  {
    var line := "  " + inner;
    assert line[|line| - 1] == inner[|inner| - 1];
  }

  lemma SpacesAreNoBreaks(inner: string)
    requires BreakFree(inner)
    ensures BreakFree("  " + inner)
  {
    BreakFreeBoth("  ", inner);
  }

  lemma TemplateIsPassive(t: Template, provider: string, event: string)
    requires Proper(t, provider, event)
    ensures forall k | 0 <= k < |TemplateFields(t)| :: Passive(TemplateFields(t)[k])
  {
    hide Passive, Silent, LinesOf, IndentedLines, Sound, SOURCE_LINE, SoundUpdates;
    SourceLineIsPassive();
    LinesArePassive(t.before);
    LinesArePassive(t.after);
    IndentedArePassive(t.source);
  }

  lemma SourceLineIsPassive()
    ensures Passive(SOURCE_LINE)
  {
    hide Strip, Colon, KeyOf, Ignored;
    SourceLineReads();
    assert "source" !in REVIEW_KEYS;
    assert AsciiStrip(SOURCE_LINE) == SOURCE_LINE && SOURCE_LINE[6] == ':' && ':' !in "---";
    assert Printable(SOURCE_LINE);
    PrintableBytes(SOURCE_LINE);
  }

  lemma LinesArePassive(entries: Updates)
    requires Silent(entries)
    ensures forall k | 0 <= k < |LinesOf(entries)| :: Passive(LinesOf(entries)[k])
  {
    hide Passive, Sound, Line;
    LinesAreFields(entries);
    forall k | 0 <= k < |LinesOf(entries)|
      ensures Passive(LinesOf(entries)[k])
    {
      FieldIsPassive(entries[k].0, entries[k].1);
    }
  }

  lemma IndentedArePassive(entries: Updates)
    requires SoundUpdates(entries)
    ensures forall k | 0 <= k < |IndentedLines(entries)| :: Passive(IndentedLines(entries)[k])
  {
    hide Passive, Sound, Line;
    LinesAreFields(entries);
    forall k | 0 <= k < |IndentedLines(entries)|
      ensures Passive(IndentedLines(entries)[k])
    {
      IndentedIsPassive(entries[k].0, entries[k].1);
    }
  }

  // ---------------------------------------------------------------------------------------------
  // A review of a fresh capture
  // ---------------------------------------------------------------------------------------------

  /** A block as the program writes it, without a word of a review. */
  ghost predicate Untouched(b: Block) {
    b.open == "---" && b.close == "---" && b.ends == |b.fields| + 2 && AllPassive(b.fields)
  }

  ghost predicate AllPassive(lines: seq<string>) {
    forall k | 0 <= k < |lines| :: Passive(lines[k])
  }

  lemma PassiveIsPlain(lines: seq<string>)
    requires AllPassive(lines)
    ensures Plain(lines) && Boundary(lines) == |lines| && Contents(lines)
  {
    hide Ignored, Indented, KeyOf, HasColon, IsDelimiter, IsPhysical, IsMarker, IsGap, BreakFree;
  }

  lemma PassiveIsKept(r: Review, line: string)
    requires Passive(line)
    ensures Replacing(Ups(r), line) == None
  {
    hide Ups, Ignored, Indented, HasColon, KeyOf, Find, IsInner, IsDelimiter, BreakFree;
    UpsSound(r);
    ReplacingIs(Ups(r), line);
    if Replacing(Ups(r), line).Some? {
      var k := Replacing(Ups(r), line).value;
      assert Ups(r)[k].0 == REVIEW_KEYS[k];
      IndentedBegins(line);
    }
  }

  lemma IndentedBegins(line: string)
    ensures Indented(line) ==> line != "" && line[0] == ' '
  {
  }

  lemma {:induction false} NothingReplaced(r: Review, lines: seq<string>)
    requires AllPassive(lines)
    ensures LineChanges(Ups(r), lines) == Keep(lines) && ReplacedAll(Ups(r), lines) == lines
    ensures forall key :: !Seen(Ups(r), lines, key)
    decreases |lines|
  {
    hide Ups, Passive, Replacing, Pieces, KeyOf;
    forall k | 0 <= k < |lines|
      ensures Replacing(Ups(r), lines[k]) == None
    {
      PassiveIsKept(r, lines[k]);
    }
    if lines != [] {
      var n := |lines| - 1;
      NothingReplaced(r, lines[..n]);
      PassiveIsPiece(lines[n]);
      OneKept(lines[n]);
      assert lines[..n] + [lines[n]] == lines;
    }
  }

  lemma PassiveIsPiece(line: string)
    requires Passive(line)
    ensures Pieces(line) == [line]
  {
    LineIsPiece(line);
  }

  lemma OneKept(piece: string)
    ensures Keep([piece]) == [Kept(piece)]
  {
    assert [piece][..0] == [];
  }

  lemma {:induction false} AllInserted(ups: Updates, lines: seq<string>, k: nat)
    requires k <= |ups| && forall key :: !Seen(ups, lines, key)
    ensures Missing(ups, lines, k) == LinesOf(ups[..k])
    ensures |Insertions(ups, lines, k)| == k
    ensures forall i | 0 <= i < k :: Insertions(ups, lines, k)[i] == Written([], ups[i].0, ups[i].1)
    decreases k
  {
    hide Seen, Line;
    if k > 0 {
      AllInserted(ups, lines, k - 1);
      assert ups[..k][..k - 1] == ups[..k - 1];
    }
  }

  /** Insertions behind what is kept: nothing is orphaned, no delimiter ends them, and each has the last word on its key. */
  lemma {:induction false} InsertedLast(kept: seq<string>, ups: Updates, t: seq<Change>, n: nat)
    requires Plain(kept) && n <= |ups| && |t| == |kept| + n && (forall a, b | 0 <= a < b < |ups| :: ups[a].0 != ups[b].0)
    requires forall k | 0 <= k < |kept| :: t[k] == Kept(kept[k])
    requires forall k | 0 <= k < n :: t[|kept| + k] == Written([], ups[k].0, ups[k].1)
    ensures Reach(t) == t && !Orphans(t) && forall k | 0 <= k < n :: Said(t, ups[k].0) == Some(ups[k].1)
    decreases n
  {
    hide Plain, Reach, Orphans, Said;
    if n == 0 {
      KeptOnly(kept, t);
    } else {
      InsertedLast(kept, ups, t[..|t| - 1], n - 1);
      assert t[|kept| + (n - 1)] == Written([], ups[n - 1].0, ups[n - 1].1);
      WrittenLast(t);
    }
  }

  lemma WrittenLast(t: seq<Change>)
    requires t != [] && t[|t| - 1].Written?
    ensures Reach(t[..|t| - 1]) == t[..|t| - 1] ==> Reach(t) == t
    ensures Orphans(t) <==> Orphans(t[..|t| - 1])
    ensures forall key :: Said(t, key) == if t[|t| - 1].key == key then Some(t[|t| - 1].value) else Said(t[..|t| - 1], key)
  {
    hide IsDelimiter, IsTop, Ignored, Indented, HasColon, KeyOf;
  }

  lemma {:induction false} KeptOnly(kept: seq<string>, t: seq<Change>)
    requires Plain(kept) && |t| == |kept| && forall k | 0 <= k < |kept| :: t[k] == Kept(kept[k])
    ensures Reach(t) == t && !Orphans(t) && !UnderWritten(t)
    decreases |t|
  {
    hide IsTop, Ignored, Indented, IsDelimiter, BreakFree;
    if t != [] {
      var n := |t| - 1;
      assert forall k | 0 <= k < n :: kept[..n][k] == kept[k];
      KeptOnly(kept[..n], t[..n]);
    }
  }

  lemma PassiveUpdate(r: Review, lines: seq<string>)
    requires AllPassive(lines)
    ensures Updated(Ups(r), lines) == lines + LinesOf(Ups(r))
    ensures var t := Reach(Script(Ups(r), lines)); !Orphans(t) && LastWord(Ups(r), t)
    ensures Unbroken(Ups(r), lines)
  {
    hide Ups, Passive, Replacing, ReplacedAll, Missing, LineChanges, Insertions, Orphans, Said, Reach, Seen, BreakFree, LinesOf, Sound;
    UpsSound(r);
    PassiveIsPlain(lines);
    NothingReplaced(r, lines);
    AllInserted(Ups(r), lines, |Ups(r)|);
    KeepTexts(lines);
    assert Ups(r)[..|Ups(r)|] == Ups(r);
    InsertedLast(lines, Ups(r), Script(Ups(r), lines), |Ups(r)|);
    forall k | 0 <= k < |lines|
      ensures Replacing(Ups(r), lines[k]) == None
    {
      PassiveIsKept(r, lines[k]);
    }
  }

  /** A review of an untouched capture takes effect if and only if its five lines still fit. */
  lemma UntouchedFeasible(r: Review, b: Block)
    requires Untouched(b) && BlockFront(b).Some?
    ensures Feasible(r, b) <==> Size(b) + LineBytes(LinesOf(Ups(r))) + |REVIEW_KEYS| <= MAX_HOOK_FRONTMATTER_BYTES
  {
    hide Ups, AllPassive, Orphans, LastWord, Script, Reach, Unbroken, Parse, Effective, Sets, IsBlock, LinesOf, LineBytes, Updated, Bytes;
    PassiveIsPlain(b.fields);
    assert b.fields[..|b.fields|] == b.fields && b.fields[|b.fields|..] == [];
    PassiveUpdate(r, b.fields);
    UpsSound(r);
    BlockParses(b);
    UpdateSets(Ups(r), b.fields);
    UpdateExact(Ups(r), b.fields);
    RenderedCount(Ups(r));
    LineBytesConcat(b.fields, LinesOf(Ups(r)));
    assert UpdatedBlock(Ups(r), b.fields) == b.fields + LinesOf(Ups(r));
  }

  lemma BlockParses(b: Block)
    requires BlockFront(b).Some?
    ensures Parse(b.fields).Some?
  {
    hide IsBlock, Parse, IsDelimiter, Pieces;
    FrontIs(b);
  }

  lemma {:induction false} RenderedCount(ups: Updates)
    ensures |LinesOf(ups)| == |ups|
    decreases |ups|
  {
    hide Line;
    if ups != [] {
      RenderedCount(ups[..|ups| - 1]);
    }
  }

  predicate IsLetters(s: string) {
    forall k | 0 <= k < |s| :: 'a' <= s[k] <= 'z' || 'A' <= s[k] <= 'Z'
  }

  lemma SupportedNames(provider: string, event: string)
    requires Supported(provider, event)
    ensures IsWord(provider) && IsLetters(event)
  {
    assert IsWord("codex") && IsWord("claude");
    EventNames(event);
  }

  lemma EventNames(event: string)
    requires event in CODEX_EVENTS || event in CLAUDE_EVENTS
    ensures IsLetters(event)
  {
    assert IsLetters("UserPromptSubmit") && IsLetters("PreCompact") && IsLetters("PostCompact") && IsLetters("Stop");
    assert IsLetters("SessionStart") && IsLetters("SubagentStop") && IsLetters("Notification");
  }

  lemma ColonBetween(a: string, b: string)
    requires ':' !in a
    ensures var s := a + ":" + b; Colon(s) == |a| < |s| && s[..Colon(s)] == a && s[Colon(s) + 1..] == b
  {
    var s := a + ":" + b;
    assert forall k | 0 <= k < |a| :: s[k] == a[k];
    ColonIs(s, |a|);
  }

  lemma SplitIs(ref: string, rest: string, provider: string, event: string)
    requires Colon(ref) < |ref| && ref[..Colon(ref)] == "hook" && ref[Colon(ref) + 1..] == rest
    requires Colon(rest) < |rest| && rest[..Colon(rest)] == provider && rest[Colon(rest) + 1..] == event
    requires Strip(Lower(provider)) == provider && Supported(provider, event)
    ensures SplitRef(ref) == Some((provider, event))
  {
    hide Supported, Colon, Lower, Strip;
  }

  lemma RefIs(provider: string, event: string)
    ensures Ref(provider, event) == "hook" + ":" + (provider + ":" + event)
  {
  }

  lemma RefSplits(provider: string, event: string)
    requires Supported(provider, event)
    ensures SplitRef(Ref(provider, event)) == Some((provider, event))
  {
    SupportedNames(provider, event);
    WordLower(provider);
    StripSound(provider);
    assert ':' !in provider && ':' !in "hook";
    hide Supported, Colon, Lower, Strip, IsWord, IsLetters, SplitRef, Ref;
    ColonBetween("hook", provider + ":" + event);
    ColonBetween(provider, event);
    RefIs(provider, event);
    SplitIs(Ref(provider, event), provider + ":" + event, provider, event);
  }

  lemma RefReads(j: Json, provider: string, event: string)
    requires Supported(provider, event)
    ensures ScalarOf(j, "\"" + Ref(provider, event) + "\"") == Text(Ref(provider, event))
  {
    SupportedNames(provider, event);
    hide Supported;
    assert IsPlain("hook:") && IsPlain(":") && IsPlain(provider) && IsPlain(event);
    hide IsPlain, IsWord, IsLetters, ScalarOf;
    PlainConcat("hook:", provider);
    PlainConcat("hook:" + provider, ":");
    PlainConcat("hook:" + provider + ":", event);
    QuotedReads(j, Ref(provider, event));
  }

  lemma PlainConcat(a: string, b: string)
    requires IsPlain(a) && IsPlain(b)
    ensures IsPlain(a + b)
  {
  }

  /** A capture of the program: one that can be read, and is untouched as long as it is pending, or one that a review
      has made too large. */
  ghost predicate Healthy(j: Json, f: File) {
    || (FrontOf(j, f).Some? && (Status(j, FrontOf(j, f).value) == "pending" ==> Untouched(f.block)))
    || Size(f.block) > MAX_HOOK_FRONTMATTER_BYTES
  }

  lemma FreshIsBlock(t: Template, provider: string, event: string)
    requires Proper(t, provider, event) && Size(FreshBlock(t)) <= MAX_HOOK_FRONTMATTER_BYTES
    ensures IsBlock(FreshBlock(t)) && Untouched(FreshBlock(t))
  {
    hide Proper, Passive, TemplateFields, Size, IsPhysical, IsGap;
    TemplateIsPassive(t, provider, event);
    PassiveIsPlain(TemplateFields(t));
    DashesMark();
  }

  lemma DashesMark()
    ensures IsMarker("---") && IsPhysical("---") && Pieces("---") == ["---"] && IsDelimiter("---")
  {
    assert AsciiStrip("---") == "---";
    assert Printable("---");
    PrintableBytes("---");
    LineIsPiece("---");
    MarkerIsDelimiter("---");
  }

  lemma FreshFront(t: Template, provider: string, event: string)
    requires Proper(t, provider, event) && Size(FreshBlock(t)) <= MAX_HOOK_FRONTMATTER_BYTES
    ensures BlockFront(FreshBlock(t)) == Parse(TemplateFields(t))
    ensures Parse(TemplateFields(t)) == match ReadAll(NOTHING_READ, TemplateFields(t)) case None => None case Some(r) => Some(r.front)
  {
    hide Proper, TemplateFields, IsBlock, AllPassive, Until, AllPieces, ReadAll, Pieces, IsDelimiter, Size;
    FreshIsBlock(t, provider, event);
    PassiveIsPlain(TemplateFields(t));
    PlainPieces(TemplateFields(t));
    FrontIs(FreshBlock(t));
    DashesMark();
  }

  /** A new capture is pending, names its hook, and says nothing about a review. */
  lemma FreshCapture(j: Json, t: Template, provider: string, event: string, body: string)
    requires Proper(t, provider, event) && Supported(provider, event) && Size(FreshBlock(t)) <= MAX_HOOK_FRONTMATTER_BYTES
    ensures var f := File(FreshBlock(t), body);
            && FrontOf(j, f).Some? && Status(j, FrontOf(j, f).value) == "pending" && Untouched(f.block)
            && ProviderEvent(j, FrontOf(j, f).value) == Some((provider, event))
  {
    hide Proper, Supported, Parse, TemplateFields, Untouched, Status, ScalarOf, SplitRef, Size, IsBlock, Ref, BlockFront, ReadAll;
    FreshFront(t, provider, event);
    FreshIsBlock(t, provider, event);
    TemplateParses(t, provider, event);
    RefReads(j, provider, event);
    RefSplits(provider, event);
    NoReviewYet(j, ReadAll(NOTHING_READ, TemplateFields(t)).value.front);
  }

  lemma NoReviewYet(j: Json, front: Front)
    requires forall k | 0 <= k < |REVIEW_KEYS| :: REVIEW_KEYS[k] !in front
    ensures Status(j, front) == "pending"
  {
    assert REVIEW_KEYS[0] == "reviewed" && REVIEW_KEYS[1] == "review_status";
    assert "" !in STATUSES;
    hide ScalarOf;
  }

  /** Only the program's own new captures come into the inbox. */
  ghost predicate Own(op: Op) {
    op.DoCapture? ==>
      exists t: Template, provider: string, event: string {:trigger Proper(t, provider, event)} ::
        op.name.Capture? && op.name.provider == provider && op.name.event == event && Proper(t, provider, event)
        && op.file.block == FreshBlock(t) && Size(op.file.block) <= MAX_HOOK_FRONTMATTER_BYTES
  }

  ghost predicate AllHealthy(j: Json, s: State) {
    forall n | n in s.inbox :: Healthy(j, s.inbox[n])
  }

  /** The five lines of the review fit into the block. */
  ghost predicate Fits(r: Review, b: Block) {
    Size(b) + LineBytes(LinesOf(Ups(r))) + |REVIEW_KEYS| <= MAX_HOOK_FRONTMATTER_BYTES
  }

  lemma AcceptedIsUntouched(j: Json, s: State, name: Name, r: Review, flagged: bool)
    requires Accepts(j, s, name, r, flagged) && Healthy(j, s.inbox[name])
    ensures Untouched(s.inbox[name].block) && BlockFront(s.inbox[name].block).Some? && Lower(Strip(r.status)) != "pending"
  {
    hide ProviderEvent, Status, Lower, Strip, Squeezed, Untouched, ParseText, Size;
    assert "pending" !in STATUSES;
    FrontFits(s.inbox[name].block);
  }

  lemma FrontFits(b: Block)
    ensures BlockFront(b).Some? ==> Size(b) <= MAX_HOOK_FRONTMATTER_BYTES
  {
    hide ParseText, Size, IsMarker, IsGap, IsPhysical;
  }

  /** A review of the program's own capture takes effect if and only if it fits. If not, the capture can no longer be
      read: it is too large. */
  lemma OwnReview(j: Json, s: State, name: Name, r: Review, flagged: bool)
    requires Accepts(j, s, name, r, flagged) && Healthy(j, s.inbox[name])
    ensures var before, after := s.inbox[name], Reviewed(j, s, name, r, flagged).inbox[name];
            && (TakesEffect(j, r, before, after) <==> Fits(r, before.block))
            && (TakesEffect(j, r, before, after) ==> Status(j, FrontOf(j, after).value) == Lower(Strip(r.status)))
            && (!Fits(r, before.block) ==> Size(after.block) > MAX_HOOK_FRONTMATTER_BYTES && FrontOf(j, after) == None)
            && Healthy(j, after)
  {
    hide Ups, Effective, Status, Lower, Strip, Accepts, ProviderEvent, Untouched, Size, Rewritten, BlockFront, LinesOf, LineBytes, Sets;
    AcceptedIsPending(j, s, name, r, flagged);
    var before, after := s.inbox[name], Reviewed(j, s, name, r, flagged).inbox[name];
    AcceptedIsUntouched(j, s, name, r, flagged);
    ReviewTakesEffect(j, s, name, r, flagged);
    UntouchedFeasible(r, before.block);
    UntouchedSize(r, before.block);
    assert after.block == Rewritten(Ups(r), before.block);
    FrontFits(after.block);
    if TakesEffect(j, r, before, after) {
      SomeSet(Ups(r), FrontOf(j, before).value, FrontOf(j, after));
    }
  }

  lemma UntouchedSize(r: Review, b: Block)
    requires Untouched(b)
    ensures Size(Rewritten(Ups(r), b)) == Size(b) + LineBytes(LinesOf(Ups(r))) + |REVIEW_KEYS|
  {
    hide Ups, AllPassive, LinesOf, LineBytes, Updated, Bytes;
    PassiveIsPlain(b.fields);
    assert b.fields[..|b.fields|] == b.fields && b.fields[|b.fields|..] == [];
    PassiveUpdate(r, b.fields);
    UpsSound(r);
    RenderedCount(Ups(r));
    LineBytesConcat(b.fields, LinesOf(Ups(r)));
    assert UpdatedBlock(Ups(r), b.fields) == b.fields + LinesOf(Ups(r));
  }

  lemma ReviewedIsHealthy(j: Json, s: State, name: Name, r: Review, flagged: bool)
    requires AllHealthy(j, s)
    ensures AllHealthy(j, Reviewed(j, s, name, r, flagged))
  {
    hide Healthy, Accepts, Ups, Rewritten, Keeps;
    ReviewedKeeps(j, s, name, r, flagged);
    if Accepts(j, s, name, r, flagged) {
      AcceptedIsPending(j, s, name, r, flagged);
      OwnReview(j, s, name, r, flagged);
    }
  }

  lemma CapturedIsHealthy(j: Json, s: State, op: Op)
    requires AllHealthy(j, s) && op.DoCapture? && op.name.Capture? && Own(op)
    ensures AllHealthy(j, Captured(s, op.name, op.file, op.maxPending, op.flagged))
  {
    hide Healthy, Proper, TemplateFields, Supported, AtCapacity, Holds, Size;
    var t: Template, provider: string, event: string :| Proper(t, provider, event)
      && op.name.provider == provider && op.name.event == event && op.file.block == FreshBlock(t)
      && Size(op.file.block) <= MAX_HOOK_FRONTMATTER_BYTES;
    if Supported(provider, event) {
      FreshCapture(j, t, provider, event, op.file.body);
      FreshIsHealthy(j, op.file);
    }
  }

  lemma FreshIsHealthy(j: Json, f: File)
    requires FrontOf(j, f).Some? && Untouched(f.block)
    ensures Healthy(j, f)
  {
  }

  lemma {:induction false} ArchivedIsHealthy(j: Json, o: Selection, s: State, names: seq<Name>)
    requires AllHealthy(j, s)
    ensures AllHealthy(j, Archived(j, o, s, names))
    decreases |names|
  {
    hide Healthy, Eligible;
    if names != [] {
      ArchivedIsHealthy(j, o, s, names[..|names| - 1]);
    }
  }

  /** In every life that starts with the program's own captures and adds only such, every accepted review takes effect
      if and only if its lines fit into the block: the capture then has the chosen status. */
  lemma {:induction false} EveryReviewThatFits(j: Json, s: State, ops: seq<Op>, t: State, name: Name, r: Review)
    requires Runs(j, s, ops, t) && AllHealthy(j, s) && forall k | 0 <= k < |ops| :: Own(ops[k])
    ensures AllHealthy(j, t)
    ensures Accepts(j, t, name, r, false) ==>
              var before, after := t.inbox[name], Reviewed(j, t, name, r, false).inbox[name];
              && (TakesEffect(j, r, before, after) <==> Fits(r, before.block))
              && (Fits(r, before.block) ==> FrontOf(j, after).Some? && Status(j, FrontOf(j, after).value) == Lower(Strip(r.status)))
              && (!Fits(r, before.block) ==> FrontOf(j, after) == None)
    decreases |ops|
  {
    hide Own, AllHealthy, Accepts, FrontOf, Status, Reviewed, Lower, Strip, Done, Fits, TakesEffect, Lists, ValidSelection;
    if ops == [] {
      if Accepts(j, t, name, r, false) {
        LastReview(j, t, name, r);
      }
    } else {
      var next := Done(j, s, ops[0]);
      StepIsHealthy(j, s, ops[0]);
      EveryReviewThatFits(j, next, ops[1..], t, name, r);
    }
  }

  lemma LastReview(j: Json, t: State, name: Name, r: Review)
    requires AllHealthy(j, t) && Accepts(j, t, name, r, false)
    ensures name in t.inbox
    ensures var before, after := t.inbox[name], Reviewed(j, t, name, r, false).inbox[name];
            && (TakesEffect(j, r, before, after) <==> Fits(r, before.block))
            && (Fits(r, before.block) ==> FrontOf(j, after).Some? && Status(j, FrontOf(j, after).value) == Lower(Strip(r.status)))
            && (!Fits(r, before.block) ==> FrontOf(j, after) == None)
  {
    hide Healthy, FrontOf, Status, Lower, Strip, Fits, Accepts, Sets;
    AcceptedIsPending(j, t, name, r, false);
    OwnReview(j, t, name, r, false);
    var before, after := t.inbox[name], Reviewed(j, t, name, r, false).inbox[name];
    if TakesEffect(j, r, before, after) {
      SomeSet(Ups(r), FrontOf(j, before).value, FrontOf(j, after));
    }
  }

  lemma StepIsHealthy(j: Json, s: State, op: Op)
    requires Legal(s, op) && AllHealthy(j, s) && Own(op)
    ensures AllHealthy(j, Done(j, s, op))
  {
    hide Own, AllHealthy, Captured, Reviewed, Archived, Lists, ValidSelection;
    match op
    case DoCapture(_, _, _, _) => CapturedIsHealthy(j, s, op);
    case DoReview(n, review, flagged) => ReviewedIsHealthy(j, s, n, review, flagged);
    case DoArchive(names, o) => ArchivedIsHealthy(j, o, s, names);
  }

  // ---------------------------------------------------------------------------------------------
  // A reason that is too long
  // ---------------------------------------------------------------------------------------------

  /** A text without white space of characters that `json.dumps` writes in six bytes each. */
  predicate IsForeign(s: string) {
    forall k | 0 <= k < |s| :: 0x7f <= s[k] as int < 0x10000 && !IsSpace(s[k])
  }

  lemma {:induction false} ForeignEscapes(s: string)
    requires IsForeign(s)
    ensures |Escaped(s)| == 6 * |s|
    decreases |s|
  {
    hide Escape, IsSpace;
    if s != "" {
      ForeignEscapes(s[..|s| - 1]);
      EscapeIsPrintable(s[|s| - 1]);
    }
  }

  lemma {:induction false} LastLineBytes(lines: seq<string>)
    requires lines != []
    ensures LineBytes(lines) >= Bytes(lines[|lines| - 1])
    decreases |lines|
  {
    hide Bytes;
  }

  /** A review with such a reason of 11000 characters is accepted for every pending capture of the program, and leaves
      a file that can neither be read nor reviewed nor archived any more. */
  lemma LongReason(j: Json, s: State, name: Name, r: Review)
    requires name in s.inbox && FrontOf(j, s.inbox[name]).Some? && Status(j, FrontOf(j, s.inbox[name]).value) == "pending"
    requires Untouched(s.inbox[name].block)
    requires IsResolved(Lower(Strip(r.status))) && Strip(r.reviewer) != "" && IsForeign(r.reason) && |r.reason| >= 11000
    ensures Accepts(j, s, name, r, false)
    ensures var t := Reviewed(j, s, name, r, false);
            && FrontOf(j, t.inbox[name]) == None
            && (forall other: Review, flagged :: !Accepts(j, t, name, other, flagged))
            && (forall o: Selection :: !Eligible(j, o, t.archive, name, t.inbox[name]))
  {
    hide Ups, Status, Lower, Strip, ProviderEvent, Untouched, Size, Rewritten, BlockFront, LinesOf, LineBytes, Sets, IsResolved,
         Squeezed, IsForeign, Selected, Accepts, Eligible, FrontOf, Reviewed;
    ReasonIsLong(r);
    FreshIsHealthy(j, s.inbox[name]);
    IsAccepted(j, s, name, r);
    OwnReview(j, s, name, r, false);
    Unreadable(j, Reviewed(j, s, name, r, false), name);
  }

  lemma IsAccepted(j: Json, s: State, name: Name, r: Review)
    requires name in s.inbox && FrontOf(j, s.inbox[name]).Some? && Status(j, FrontOf(j, s.inbox[name]).value) == "pending"
    requires IsResolved(Lower(Strip(r.status))) && Strip(r.reviewer) != "" && Squeezed(r.reason) != ""
    ensures Accepts(j, s, name, r, false) && name in Reviewed(j, s, name, r, false).inbox
  {
    hide FrontOf, Status, Squeezed, Lower, Strip, IsResolved, Ups, Rewritten;
  }

  /** A file that cannot be read is neither reviewed nor archived. */
  lemma Unreadable(j: Json, t: State, name: Name)
    requires name in t.inbox && FrontOf(j, t.inbox[name]) == None
    ensures forall other: Review, flagged :: !Accepts(j, t, name, other, flagged)
    ensures forall o: Selection :: !Eligible(j, o, t.archive, name, t.inbox[name])
  {
    hide FrontOf, Status, Squeezed, Lower, Strip, Selected;
  }

  lemma ReasonIsLong(r: Review)
    requires IsForeign(r.reason) && |r.reason| >= 11000
    ensures Squeezed(r.reason) != "" && LineBytes(LinesOf(Ups(r))) > MAX_HOOK_FRONTMATTER_BYTES
  {
    hide Ups, LineBytes, Bytes, Escaped, Squeezed, Rendered, IsSpace;
    SolidStays(r.reason);
    ForeignEscapes(r.reason);
    var ups := Ups(r);
    UpsLast(r);
    var v := Dumped(r.reason);
    assert LinesOf(ups)[|LinesOf(ups)| - 1] == Line("review_reason", v);
    LastLineBytes(LinesOf(ups));
    LongLine("review_reason" + ": ", v, r.reason);
  }

  lemma UpsLast(r: Review)
    ensures Ups(r) != [] && Ups(r)[|Ups(r)| - 1] == ("review_reason", Rendered(Squeezed(r.reason)))
  {
  }

  lemma LongLine(front: string, v: string, s: string)
    requires v == Dumped(s)
    ensures Bytes(front + v) >= |Escaped(s)|
  {
    hide Bytes, Escaped;
    BytesConcat(front, v);
    EscapedIsPrintable(s);
    assert Printable(v);
    PrintableBytes(v);
  }
}
