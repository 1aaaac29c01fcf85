/** The block of instructions that the hooks maintain inside a file somebody else owns. */
module ManagedBlock {
  import opened Wrappers
  import opened PyText

  predicate Occurs(text: string, m: string, k: int) {
    0 <= k && k + |m| <= |text| && text[k..k + |m|] == m
  }

  ghost predicate Has(text: string, m: string) {
    exists k :: Occurs(text, m, k)
  }

  /** `text.index(m, from)` */
  function Index(text: string, m: string, from: nat): (r: Option<nat>)
    ensures r.Some? ==> from <= r.value && r.value + |m| <= |text|
    decreases |text| - from
  {
    if from + |m| > |text| then None
    else if Occurs(text, m, from) then Some(from)
    else Index(text, m, from + 1)
  }

  datatype Markers = Markers(begin: string, end: string)

  /** A marker stands on one line and neither begins nor ends with white space. */
  predicate IsMarker(m: string) {
    m != "" && '\n' !in m && !IsSpace(m[0]) && !IsSpace(m[|m| - 1])
  }

  predicate Sane(m: Markers) {
    IsMarker(m.begin) && IsMarker(m.end)
  }

  /** A block runs from one begin marker to the first end marker. */
  ghost predicate IsBlock(m: Markers, b: string) {
    && |b| >= |m.begin| + |m.end| && Occurs(b, m.begin, 0) && Occurs(b, m.end, |b| - |m.end|)
    && forall k | 0 <= k < |b| - |m.end| :: !Occurs(b, m.end, k)
  }

  /** The text before and behind the block, if both markers are there; an error if the end marker comes too early. */
  function Parts(m: Markers, text: string): Result<Option<(string, string)>, ()> {
    match (Index(text, m.begin, 0), Index(text, m.end, 0))
    case (Some(start), Some(_)) =>
      (match Index(text, m.end, start)
       case None => Err(())
       case Some(k) => Ok(Some((text[..start], text[k + |m.end|..]))))
    case _ => Ok(None)
  }

  predicate Present(m: Markers, text: string) {
    Index(text, m.begin, 0).Some? && Index(text, m.end, 0).Some?
  }

  function Upsert(m: Markers, text: string, block: string): Result<string, ()> {
    match Parts(m, text)
    case Err(_) => Err(())
    case Ok(None) => Ok(Rstrip(text) + "\n\n" + Rstrip(block) + "\n")
    case Ok(Some((before, after))) => Ok(Rstrip(Rstrip(before) + "\n\n" + Rstrip(block) + "\n" + Lstrip(after)) + "\n")
  }

  function Tidy(text: string): string {
    Rstrip(text) + if Strip(text) != "" then "\n" else ""
  }

  function Remove(m: Markers, text: string): Result<string, ()> {
    match Parts(m, text)
    case Err(_) => Err(())
    case Ok(None) => Ok(text)
    case Ok(Some((before, after))) => Ok(Tidy(Rstrip(before) + "\n\n" + Lstrip(after)))
  }

  // ---------------------------------------------------------------------------------------------
  // Where a marker can stand
  // ---------------------------------------------------------------------------------------------

  lemma OccursLeft(x: string, y: string, m: string, k: int)
    requires k + |m| <= |x|
    ensures Occurs(x + y, m, k) <==> Occurs(x, m, k)
  {
    if 0 <= k {
      assert (x + y)[k..k + |m|] == x[k..k + |m|];
    }
  }

  lemma OccursRight(x: string, y: string, m: string, k: int)
    requires k >= |x|
    ensures Occurs(x + y, m, k) <==> Occurs(y, m, k - |x|)
  {
    if k + |m| <= |x + y| {
      assert (x + y)[k..k + |m|] == y[k - |x|..k - |x| + |m|];
    }
  }

  /** No marker stands across a line feed. */
  lemma NotAcross(text: string, m: string, k: int, j: nat)
    requires IsMarker(m) && Occurs(text, m, k) && j < |text| && text[j] == '\n'
    ensures k + |m| <= j || j < k
  {
    assert forall i | k <= i < k + |m| :: text[i] == m[i - k];
  }

  /** A marker in a text with a line feed stands on one side of it. */
  lemma SeamOccurs(x: string, y: string, m: string, k: int)
    requires IsMarker(m)
    ensures Occurs(x + "\n" + y, m, k) <==> Occurs(x, m, k) || Occurs(y, m, k - |x| - 1)
  {
    var t := x + "\n" + y;
    assert t == x + ("\n" + y) && t == (x + "\n") + y;
    if Occurs(t, m, k) {
      NotAcross(t, m, k, |x|);
    }
    if k + |m| <= |x| {
      OccursLeft(x, "\n" + y, m, k);
    }
    if k > |x| {
      OccursRight(x + "\n", y, m, k);
    }
  }

  lemma SeamHas(x: string, y: string, m: string)
    requires IsMarker(m)
    ensures Has(x + "\n" + y, m) <==> Has(x, m) || Has(y, m)
  {
    forall k: int
      ensures Occurs(x + "\n" + y, m, k) <==> Occurs(x, m, k) || Occurs(y, m, k - |x| - 1)
    {
      SeamOccurs(x, y, m, k);
    }
    if Has(y, m) {
      var k :| Occurs(y, m, k);
      assert Occurs(x + "\n" + y, m, k + |x| + 1);
    }
  }

  lemma RstripOccurs(s: string, m: string, k: int)
    requires IsMarker(m)
    ensures Occurs(Rstrip(s), m, k) <==> Occurs(s, m, k)
  {
    RstripParts(s);
    var r := Rstrip(s);
    assert s == r + s[|r|..];
    if Occurs(s, m, k) {
      assert s[k + |m| - 1] == s[k..k + |m|][|m| - 1];
      LastIsKept(s, k + |m| - 1);
    }
    if k + |m| <= |r| {
      OccursLeft(r, s[|r|..], m, k);
    }
  }

  lemma RstripHas(s: string, m: string)
    requires IsMarker(m)
    ensures Has(Rstrip(s), m) <==> Has(s, m)
  {
    forall k: int
      ensures Occurs(Rstrip(s), m, k) <==> Occurs(s, m, k)
    {
      RstripOccurs(s, m, k);
    }
  }

  lemma LstripHas(s: string, m: string)
    requires IsMarker(m)
    ensures Has(Lstrip(s), m) <==> Has(s, m)
  {
    LstripParts(s);
    var n := |s| - |Lstrip(s)|;
    assert s == s[..n] + Lstrip(s);
    if Has(s, m) {
      var k :| Occurs(s, m, k);
      assert s[k] == s[k..k + |m|][0];
      FirstIsKept(s, k);
      OccursRight(s[..n], Lstrip(s), m, k);
    }
    if Has(Lstrip(s), m) {
      var k :| Occurs(Lstrip(s), m, k);
      OccursRight(s[..n], Lstrip(s), m, k + n);
    }
  }

  lemma {:induction false} IndexFirst(text: string, m: string, from: nat)
    ensures var r := Index(text, m, from);
            && (r.Some? ==> Occurs(text, m, r.value) && forall k | from <= k < r.value :: !Occurs(text, m, k))
            && (r.None? ==> forall k | from <= k :: !Occurs(text, m, k))
    decreases |text| - from
  {
    if from + |m| <= |text| && !Occurs(text, m, from) {
      IndexFirst(text, m, from + 1);
    }
  }

  /** The first occurrence from some position on. */
  ghost predicate FirstAt(text: string, m: string, from: nat, k: nat) {
    from <= k && Occurs(text, m, k) && forall j | from <= j < k :: !Occurs(text, m, j)
  }

  lemma IndexIs(text: string, m: string, from: nat, k: nat)
    requires FirstAt(text, m, from, k)
    ensures Index(text, m, from) == Some(k)
  {
    IndexFirst(text, m, from);
    hide Occurs, Index;
  }

  lemma IndexHas(text: string, m: string)
    ensures Index(text, m, 0).Some? <==> Has(text, m)
  {
    assert forall k | k < 0 :: !Occurs(text, m, k);
    IndexFirst(text, m, 0);
    hide Occurs, Index;
  }

  // ---------------------------------------------------------------------------------------------
  // Stripping around the block
  // ---------------------------------------------------------------------------------------------

  lemma StripEmpty(s: string)
    ensures Strip(s) == "" <==> AllSpace(s)
    ensures Rstrip(s) == "" <==> AllSpace(s)
    ensures Strip(s) == "" ==> Lstrip(s) == ""
  {
    LstripEmpty(s);
    RstripEmpty(s);
    LstripParts(s);
    RstripEmpty(Lstrip(s));
    if Lstrip(s) != "" {
      assert !AllSpace(Lstrip(s));
    }
  }

  lemma {:induction false} LstripSpaces(w: string, s: string)
    requires AllSpace(w)
    ensures Lstrip(w + s) == Lstrip(s)
    decreases |w|
  {
    if w == "" {
      assert w + s == s;
    } else {
      assert (w + s)[1..] == w[1..] + s;
      LstripSpaces(w[1..], s);
    }
  }

  lemma StripFirst(s: string)
    requires Strip(s) != ""
    ensures !IsSpace(Strip(s)[0]) && Lstrip(Strip(s)) == Strip(s) && Rstrip(Strip(s)) == Strip(s) && Strip(Strip(s)) == Strip(s)
  {
    LstripParts(s);
    RstripParts(Lstrip(s));
    RstripTwice(Lstrip(s));
    assert Strip(s)[0] == Lstrip(s)[0];
  }

  /** What follows the block: nothing, or the rest of the text on a line of its own. */
  function Tail(after: string): string {
    if Strip(after) == "" then "" else "\n" + Strip(after)
  }

  lemma TailStrips(after: string)
    ensures Strip(Tail(after) + "\n") == Strip(after)
    ensures Tail(Tail(after) + "\n") == Tail(after)
  {
    if Strip(after) == "" {
      StripEmpty("\n");
      assert Tail(after) + "\n" == "\n";
    } else {
      var s := Strip(after);
      StripFirst(after);
      assert Tail(after) + "\n" == "\n" + (s + "\n");
      LstripSpaces("\n", s + "\n");
      assert (s + "\n")[0] == s[0];
      assert Lstrip(s + "\n") == s + "\n";
      RstripSpaces(s, "\n");
    }
  }

  lemma GapStrips(before: string)
    ensures Rstrip(Rstrip(before) + "\n\n") == Rstrip(before)
  {
    RstripSpaces(Rstrip(before), "\n\n");
    RstripTwice(before);
  }

  /** Stripping the end of a text whose last part may be blank. */
  lemma RstripTail(front: string, after: string)
    requires front != "" && !IsSpace(front[|front| - 1])
    ensures Rstrip(front + "\n" + Lstrip(after)) == front + Tail(after)
  {
    var l := Lstrip(after);
    LastIsKept(front, |front| - 1);
    RstripParts(front);
    StripEmpty(after);
    assert front + "\n" + l == front + ("\n" + l);
    if Strip(after) == "" {
      assert "\n" + l == "\n";
      RstripSpaces(front, "\n");
    } else {
      RstripKeepsFront("\n", l);
      RstripKeepsFront(front, "\n" + l);
    }
  }

  // ---------------------------------------------------------------------------------------------
  // The laws
  // ---------------------------------------------------------------------------------------------

  /** Every managed text: what was before, the block, what was behind. */
  function Framed(before: string, block: string, after: string): string {
    Rstrip(before) + "\n\n" + block + Tail(after) + "\n"
  }

  /** The text without the block. */
  function Cleared(before: string, after: string): string {
    var s := if Strip(after) == "" then Rstrip(before) else Rstrip(before) + "\n\n" + Strip(after);
    s + if s == "" then "" else "\n"
  }

  /** What stands around the block, or the whole text if there is no block yet. */
  function Around(m: Markers, text: string): (string, string)
    requires Parts(m, text).Ok?
  {
    match Parts(m, text).value
    case None => (text, "")
    case Some(parts) => parts
  }

  lemma BlockEnds(m: Markers, b: string)
    requires Sane(m) && IsBlock(m, b)
    ensures b != "" && !IsSpace(b[|b| - 1]) && Rstrip(b) == b
  {
    assert b[|b| - 1] == b[|b| - |m.end|..|b| - |m.end| + |m.end|][|m.end| - 1];
    LastIsKept(b, |b| - 1);
    RstripParts(b);
  }

  lemma EmptyTail()
    ensures Tail("") == ""
  {
  }

  lemma UpsertFrames(m: Markers, text: string, b: string)
    requires Sane(m) && IsBlock(m, b) && Parts(m, text).Ok?
    ensures Upsert(m, text, b) == Ok(Framed(Around(m, text).0, b, Around(m, text).1))
  {
    BlockEnds(m, b);
    hide Parts, IsBlock, Rstrip, Lstrip, IsSpace, Strip;
    EmptyTail();
    match Parts(m, text).value
    case None =>
      assert Rstrip(text) + "\n\n" + b + "" == Rstrip(text) + "\n\n" + b;
    case Some((before, after)) =>
      var front := Rstrip(before) + "\n\n" + b;
      assert front[|front| - 1] == b[|b| - 1];
      RstripTail(front, after);
  }

  lemma RemoveClears(m: Markers, text: string)
    requires Parts(m, text).Ok? && Parts(m, text).value.Some?
    ensures Remove(m, text) == Ok(Cleared(Around(m, text).0, Around(m, text).1))
  {
    hide Parts;
    var (before, after) := Parts(m, text).value.value;
    var s := Rstrip(before) + "\n\n" + Lstrip(after);
    StripEmpty(after);
    StripEmpty(s);
    if Strip(after) == "" {
      assert s == Rstrip(before) + "\n\n";
      GapStrips(before);
    } else {
      RstripKeepsFront(Rstrip(before) + "\n\n", Lstrip(after));
    }
  }

  /** In a text made of two parts on different lines, the second of them a block and more, the block begins
      with the first begin marker unless there is one before. */
  lemma BlockBegins(m: Markers, x: string, b: string, y: string, t: string)
    requires Sane(m) && IsBlock(m, b) && t == x + "\n" + (b + y)
    ensures Occurs(t, m.begin, |x| + 1)
    ensures forall j: int | j <= |x| :: Occurs(t, m.begin, j) <==> Occurs(x, m.begin, j)
  {
    OccursLeft(b, y, m.begin, 0);
    hide IsBlock, IsMarker;
    forall j: int | j <= |x| + 1
      ensures Occurs(t, m.begin, j) <==> Occurs(x, m.begin, j) || Occurs(b + y, m.begin, j - |x| - 1)
    {
      SeamOccurs(x, b + y, m.begin, j);
    }
  }

  /** From there on the first end marker is the one that ends the block. */
  lemma BlockEndsFirst(m: Markers, x: string, b: string, y: string, t: string)
    requires Sane(m) && IsBlock(m, b) && t == x + "\n" + (b + y)
    ensures FirstAt(t, m.end, |x| + 1, |x| + 1 + |b| - |m.end|)
  {
    var start, stop := |x| + 1, |x| + 1 + |b| - |m.end|;
    SeamOccurs(x, b + y, m.end, stop);
    OccursLeft(b, y, m.end, |b| - |m.end|);
    forall j: nat | start <= j < stop
      ensures !Occurs(t, m.end, j)
    {
      SeamOccurs(x, b + y, m.end, j);
      OccursLeft(b, y, m.end, j - start);
    }
  }

  lemma FirstHas(text: string, m: string, from: nat, k: nat)
    requires FirstAt(text, m, from, k)
    ensures Has(text, m) && k + |m| <= |text| && from <= k
  {
  }

  lemma PartsAre(m: Markers, t: string, start: nat, stop: nat)
    requires FirstAt(t, m.begin, 0, start) && FirstAt(t, m.end, start, stop)
    ensures stop + |m.end| <= |t| && Parts(m, t) == Ok(Some((t[..start], t[stop + |m.end|..])))
  {
    hide Occurs, Index, Has, FirstAt;
    FirstHas(t, m.end, start, stop);
    IndexIs(t, m.begin, 0, start);
    IndexIs(t, m.end, start, stop);
    IndexHas(t, m.end);
  }

  lemma BlockFirst(m: Markers, x: string, b: string, y: string, t: string)
    requires Sane(m) && IsBlock(m, b) && !Has(x, m.begin) && t == x + "\n" + (b + y)
    ensures FirstAt(t, m.begin, 0, |x| + 1)
  {
    BlockBegins(m, x, b, y, t);
    assert forall j :: !Occurs(x, m.begin, j);
    hide IsBlock, IsMarker, Occurs;
  }

  lemma Located(m: Markers, x: string, b: string, y: string)
    requires Sane(m) && IsBlock(m, b) && !Has(x, m.begin)
    ensures Parts(m, x + "\n" + (b + y)) == Ok(Some((x + "\n", y)))
  {
    hide Occurs, IsMarker, Parts, Has, FirstAt;
    Slices(x, b, y);
    var t := x + "\n" + (b + y);
    BlockFirst(m, x, b, y, t);
    BlockEndsFirst(m, x, b, y, t);
    PartsAre(m, t, |x| + 1, |x| + 1 + |b| - |m.end|);
  }

  lemma Slices(x: string, b: string, y: string)
    ensures var t := x + "\n" + (b + y); t[..|x| + 1] == x + "\n" && t[|x| + 1 + |b|..] == y
  {
  }

  lemma FramedSplits(before: string, b: string, after: string)
    ensures var x, y := Rstrip(before) + "\n", Tail(after) + "\n";
            Framed(before, b, after) == x + "\n" + (b + y) && x + "\n" == Rstrip(before) + "\n\n"
  {
  }

  /** In a framed text the block is found where it was put. */
  lemma FramedParts(m: Markers, before: string, b: string, after: string)
    requires Sane(m) && IsBlock(m, b) && !Has(before, m.begin)
    ensures Parts(m, Framed(before, b, after)) == Ok(Some((Rstrip(before) + "\n\n", Tail(after) + "\n")))
  {
    RstripHas(before, m.begin);
    SeamHas(Rstrip(before), "", m.begin);
    assert !Has("", m.begin);
    hide Parts, Has, IsBlock, IsMarker, Rstrip, Tail;
    var x, y := Rstrip(before) + "\n", Tail(after) + "\n";
    assert Rstrip(before) + "\n" + "" == x;
    FramedSplits(before, b, after);
    hide Framed;
    Located(m, x, b, y);
  }

  lemma BeforeIsFree(m: Markers, text: string)
    requires Sane(m) && Parts(m, text).Ok? && Parts(m, text).value.Some?
    ensures !Has(Around(m, text).0, m.begin)
  {
    IndexFirst(text, m.begin, 0);
    var start := Index(text, m.begin, 0).value;
    NotBefore(text, m.begin, start);
  }

  lemma NotBefore(text: string, m: string, start: nat)
    requires start <= |text| && m != "" && forall k | 0 <= k < start :: !Occurs(text, m, k)
    ensures !Has(text[..start], m)
  {
    forall k: int
      ensures !Occurs(text[..start], m, k)
    {
      assert text == text[..start] + text[start..];
      if k + |m| <= start {
        OccursLeft(text[..start], text[start..], m, k);
      }
    }
  }

  /** The editor gives up exactly on a text that has both markers, but no end marker behind its first begin marker. */
  lemma FailsExactly(m: Markers, text: string, b: string)
    ensures Present(m, text) <==> Has(text, m.begin) && Has(text, m.end)
    ensures Upsert(m, text, b).Err? <==> Present(m, text) && Index(text, m.end, Index(text, m.begin, 0).value).None?
    ensures Remove(m, text).Err? <==> Upsert(m, text, b).Err?
  {
    IndexHas(text, m.begin);
    IndexHas(text, m.end);
  }

  /** Inserting the block again changes nothing, unless the text had a stray begin marker and no end marker. */
  lemma UpsertTwice(m: Markers, text: string, b: string)
    requires Sane(m) && IsBlock(m, b) && Upsert(m, text, b).Ok?
    ensures Upsert(m, Upsert(m, text, b).value, b) == Upsert(m, text, b) <==> !(Has(text, m.begin) && !Has(text, m.end))
  {
    IndexHas(text, m.begin);
    IndexHas(text, m.end);
    UpsertFrames(m, text, b);
    var (before, after) := Around(m, text);
    if Has(text, m.begin) && !Has(text, m.end) {
      StrayBegin(m, text, b);
    } else {
      if Parts(m, text).value.Some? {
        BeforeIsFree(m, text);
      }
      FramedParts(m, before, b, after);
      UpsertFrames(m, Framed(before, b, after), b);
      TailStrips(after);
      GapStrips(before);
      hide Parts, Tail, Has, IsBlock;
    }
  }

  /** A stray begin marker swallows the text from it to the block just appended. */
  lemma StrayBegin(m: Markers, text: string, b: string)
    requires Sane(m) && IsBlock(m, b) && Has(text, m.begin) && !Has(text, m.end)
    ensures Upsert(m, text, b).Ok? && Upsert(m, Upsert(m, text, b).value, b).Ok?
    ensures |Upsert(m, Upsert(m, text, b).value, b).value| < |Upsert(m, text, b).value|
  {
    IndexHas(text, m.begin);
    IndexHas(text, m.end);
    UpsertFrames(m, text, b);
    var t := Framed(text, b, "");
    StrayParts(m, text, b);
    UpsertFrames(m, t, b);
    var (before, after) := Around(m, t);
    StripEmpty("\n");
    assert Tail(after) == "" && Tail("") == "";
    RstripParts(before);
    hide Parts, Has, IsBlock, Occurs;
  }

  /** Where the markers are in a text with a stray begin marker and an appended block. */
  lemma StrayMarkers(m: Markers, r: string, b: string, t: string) returns (start: nat)
    requires Sane(m) && IsBlock(m, b) && Has(r, m.begin) && !Has(r, m.end) && t == (r + "\n") + "\n" + (b + "\n")
    ensures start < |r| && FirstAt(t, m.begin, 0, start) && FirstAt(t, m.end, start, |r| + 2 + |b| - |m.end|)
  {
    var x := r + "\n";
    assert m.begin != "" && m.end != "" && |b| >= |m.end|;
    hide IsBlock, IsMarker;
    LineOccurs(r, m.begin);
    LineOccurs(r, m.end);
    BlockBegins(m, x, b, "\n", t);
    BlockEndsFirst(m, x, b, "\n", t);
    EndsNotBefore(m, x, b, t);
    IndexHas(r, m.begin);
    IndexFirst(r, m.begin, 0);
    start := Index(r, m.begin, 0).value;
    hide Index;
    assert forall j: int :: !Occurs(r, m.end, j);
    hide Occurs;
  }

  lemma LineOccurs(r: string, m: string)
    requires IsMarker(m)
    ensures forall j: int :: Occurs(r + "\n", m, j) <==> Occurs(r, m, j)
  {
    assert r + "\n" + "" == r + "\n";
    forall j: int
      ensures Occurs(r + "\n", m, j) <==> Occurs(r, m, j)
    {
      SeamOccurs(r, "", m, j);
    }
  }

  /** In front of the block there is an end marker only if the text before has one. */
  lemma EndsNotBefore(m: Markers, x: string, b: string, t: string)
    requires Sane(m) && t == x + "\n" + (b + "\n")
    ensures forall j: int | 0 <= j <= |x| && Occurs(t, m.end, j) :: Occurs(x, m.end, j)
  {
    forall j: int | 0 <= j <= |x| && Occurs(t, m.end, j)
      ensures Occurs(x, m.end, j)
    {
      SeamOccurs(x, b + "\n", m.end, j);
    }
  }

  lemma StrayParts(m: Markers, text: string, b: string)
    requires Sane(m) && IsBlock(m, b) && Has(text, m.begin) && !Has(text, m.end)
    ensures var parts := Parts(m, Framed(text, b, ""));
            parts.Ok? && parts.value.Some? && |parts.value.value.0| < |Rstrip(text)| && parts.value.value.1 == "\n"
  {
    RstripHas(text, m.begin);
    RstripHas(text, m.end);
    assert |b| >= |m.end|;
    var r := Rstrip(text);
    var t := (r + "\n") + "\n" + (b + "\n");
    EmptyTail();
    StrayFramed(text, b, t);
    hide Parts, Has, IsBlock, IsMarker, Rstrip, Occurs, Tail, Framed, FirstAt;
    var start := StrayMarkers(m, r, b, t);
    PartsAre(m, t, start, |r| + 2 + |b| - |m.end|);
    assert t[|r| + 2 + |b|..] == "\n";
  }

  lemma StrayFramed(text: string, b: string, t: string)
    requires t == (Rstrip(text) + "\n") + "\n" + (b + "\n")
    ensures Framed(text, b, "") == t
  {
    assert Tail("") == "";
  }

  /** Removing an inserted block: if the block was there before, the same as removing it right away; otherwise
      the original text, up to the white space at its end. That is so if and only if the text does not have a stray
      begin marker and no end marker. */
  lemma RemoveAfterUpsert(m: Markers, text: string, b: string)
    requires Sane(m) && IsBlock(m, b) && Upsert(m, text, b).Ok?
    ensures Remove(m, Upsert(m, text, b).value) == (if Has(text, m.begin) then Remove(m, text) else Ok(Tidy(text)))
            <==> !(Has(text, m.begin) && !Has(text, m.end))
  {
    IndexHas(text, m.begin);
    IndexHas(text, m.end);
    UpsertFrames(m, text, b);
    if Has(text, m.begin) && !Has(text, m.end) {
      StrayIsLost(m, text, b);
    } else {
      RemoveAfterGood(m, text, b);
    }
  }

  lemma RemoveAfterGood(m: Markers, text: string, b: string)
    requires Sane(m) && IsBlock(m, b) && Parts(m, text).Ok? && !(Has(text, m.begin) && !Has(text, m.end))
    ensures Remove(m, Framed(Around(m, text).0, b, Around(m, text).1)) == if Has(text, m.begin) then Remove(m, text) else Ok(Tidy(text))
  {
    hide Tail, Has, IsBlock;
    IndexHas(text, m.begin);
    IndexHas(text, m.end);
    var (before, after) := Around(m, text);
    if Parts(m, text).value.Some? {
      BeforeIsFree(m, text);
      RemoveClears(m, text);
    }
    FramedParts(m, before, b, after);
    RemoveClears(m, Framed(before, b, after));
    TailStrips(after);
    GapStrips(before);
    StripEmpty(text);
  }

  /** From a stray begin marker on, all of the text goes with the block. */
  lemma StrayIsLost(m: Markers, text: string, b: string)
    requires Sane(m) && IsBlock(m, b) && Has(text, m.begin) && !Has(text, m.end)
    ensures Remove(m, Framed(text, b, "")) != Remove(m, text)
  {
    IndexHas(text, m.end);
    StrayParts(m, text, b);
    hide Parts, Has, IsBlock, Framed, IsMarker;
    var t := Framed(text, b, "");
    RemoveClears(m, t);
    var before := Parts(m, t).value.value.0;
    RstripParts(before);
    RstripParts(text);
    assert Strip("\n") == "" by { assert "\n"[1..] == ""; }
    ClearedShort(text, before);
    NoBlockStays(m, text);
  }

  lemma NoBlockStays(m: Markers, text: string)
    requires Index(text, m.end, 0) == None
    ensures Remove(m, text) == Ok(text)
  {
  }

  lemma ClearedShort(text: string, before: string)
    requires |before| < |Rstrip(text)| && Strip("\n") == ""
    ensures Cleared(before, "\n") != text
  {
    RstripParts(before);
    RstripParts(text);
    var c := Cleared(before, "\n");
    assert |c| <= |before| + 1;
    if |text| == |Rstrip(text)| {
      assert text == Rstrip(text) && !IsSpace(text[|text| - 1]);
      assert c != "" ==> c[|c| - 1] == '\n';
    }
  }

  /** A removal leaves a block behind exactly if what follows the removed block begins another one, and an end
      marker is left anywhere. */
  lemma RemoveLeavesNoBlock(m: Markers, text: string)
    requires Sane(m) && Present(m, text) && Remove(m, text).Ok?
    ensures var (before, after) := Around(m, text);
            Present(m, Remove(m, text).value) <==> Has(after, m.begin) && (Has(before, m.end) || Has(after, m.end))
  {
    RemoveClears(m, text);
    BeforeIsFree(m, text);
    var (before, after) := Around(m, text);
    ClearedHas(m.begin, before, after);
    ClearedHas(m.end, before, after);
    IndexHas(Cleared(before, after), m.begin);
    IndexHas(Cleared(before, after), m.end);
    hide Parts, Has, Cleared;
  }

  lemma ClearedHas(m: string, before: string, after: string)
    requires IsMarker(m)
    ensures Has(Cleared(before, after), m) <==> Has(before, m) || Has(after, m)
  {
    RstripHas(before, m);
    LstripHas(after, m);
    RstripHas(Lstrip(after), m);
    assert !Has("", m);
    var r, s := Rstrip(before), Strip(after);
    hide Has;
    assert r + "\n" + "" == r + "\n" && s + "\n" + "" == s + "\n";
    SeamHas(r, "", m);
    SeamHas(s, "", m);
    assert (r + "\n\n" + s) + "\n" == (r + "\n") + "\n" + (s + "\n");
    SeamHas(r + "\n", s + "\n", m);
  }

  // ---------------------------------------------------------------------------------------------
  // The markers of a client
  // ---------------------------------------------------------------------------------------------

  function ManagedMarkers(client: string): Markers {
    Markers("<!-- BEGIN AI-DEMEMORY HOOKS:" + client + " -->", "<!-- END AI-DEMEMORY HOOKS:" + client + " -->")
  }

  lemma MarkersAreSane(client: string)
    requires '\n' !in client
    ensures Sane(ManagedMarkers(client))
  {
    BracketedIsMarker("<!-- BEGIN AI-DEMEMORY HOOKS:", client);
    BracketedIsMarker("<!-- END AI-DEMEMORY HOOKS:", client);
  }

  lemma BracketedIsMarker(front: string, client: string)
    requires front != "" && front[0] == '<' && '\n' !in front && '\n' !in client
    ensures IsMarker(front + client + " -->")
  {
    var m := front + client + " -->";
    assert m[0] == '<' && m[|m| - 1] == '>';
  }

  /** Marker lines around a body that does not itself hold the end marker make a block. */
  lemma InstructionBlock(m: Markers, body: string)
    requires Sane(m) && !Has(body, m.end) && !Has(m.begin, m.end)
    ensures IsBlock(m, m.begin + "\n" + (body + "\n" + m.end))
  {
    var b := m.begin + "\n" + (body + "\n" + m.end);
    var inner := |m.begin| + 1;
    SeamOccurs(m.begin, body + "\n" + m.end, m.begin, 0);
    SeamOccurs(m.begin, body + "\n" + m.end, m.end, |b| - |m.end|);
    SeamOccurs(body, m.end, m.end, |body| + 1);
    assert |b| - |m.end| - inner == |body| + 1;
    forall k | 0 <= k < |b| - |m.end|
      ensures !Occurs(b, m.end, k)
    {
      SeamOccurs(m.begin, body + "\n" + m.end, m.end, k);
      SeamOccurs(body, m.end, m.end, k - inner);
      assert !Occurs(m.begin, m.end, k) && !Occurs(body, m.end, k - inner);
    }
  }

  /** The start of a comment occurs in a marker of a client only at its beginning. */
  lemma OneComment(front: string, client: string)
    requires '<' !in client && front != "" && forall k | 1 <= k < |front| :: front[k] != '<'
    ensures var m := front + client + " -->"; forall k | 1 <= k < |m| :: m[k] != '<'
  {
    var m, tail := front + client + " -->", " -->";
    assert '<' !in tail;
    forall k | 1 <= k < |m|
      ensures m[k] != '<'
    {
      assert m[k] == if k < |front| then front[k] else if k < |front| + |client| then client[k - |front|] else tail[k - |front| - |client|];
    }
  }

  lemma OccursAt(text: string, m: string, k: int, j: nat)
    requires Occurs(text, m, k) && j < |m|
    ensures text[k + j] == m[j]
  {
    assert text[k..k + |m|][j] == text[k + j];
  }

  lemma Apart(begin: string, end: string, body: string)
    requires |end| > 5 && |begin| > 5 && end[0] == '<' && end[1] == '!' && end[5] != begin[5]
    requires forall k | 1 <= k < |begin| :: begin[k] != '<'
    requires forall k | 0 <= k < |body| - 1 :: !(body[k] == '<' && body[k + 1] == '!')
    ensures !Has(begin, end) && !Has(body, end)
  {
    hide Occurs;
    forall k: int | Occurs(begin, end, k)
      ensures false
    {
      OccursBounds(begin, end, k);
      OccursAt(begin, end, k, 0);
      OccursAt(begin, end, k, 5);
    }
    forall k: int | Occurs(body, end, k)
      ensures false
    {
      OccursBounds(body, end, k);
      OccursAt(body, end, k, 0);
      OccursAt(body, end, k, 1);
    }
  }

  lemma OccursBounds(text: string, m: string, k: int)
    requires Occurs(text, m, k)
    ensures 0 <= k && k + |m| <= |text|
  {
  }

  /** The end marker of a client does not occur in its begin marker, nor in a text without the start of a comment. */
  lemma MarkersApart(client: string, body: string)
    requires '<' !in client && forall k | 0 <= k < |body| - 1 :: !(body[k] == '<' && body[k + 1] == '!')
    ensures var m := ManagedMarkers(client); !Has(m.begin, m.end) && !Has(body, m.end)
  {
    hide Has;
    var m := ManagedMarkers(client);
    OneComment("<!-- BEGIN AI-DEMEMORY HOOKS:", client);
    assert m.end[0] == '<' && m.end[1] == '!' && m.end[5] == 'E' && m.begin[5] == 'B';
    Apart(m.begin, m.end, body);
  }

  /** So the instructions of a client, whose body starts no comment, make a block. */
  lemma ClientBlock(client: string, body: string)
    requires '\n' !in client && '<' !in client && forall k | 0 <= k < |body| - 1 :: !(body[k] == '<' && body[k + 1] == '!')
    ensures var m := ManagedMarkers(client); Sane(m) && IsBlock(m, m.begin + "\n" + (body + "\n" + m.end))
  {
    hide ManagedMarkers, Has, IsBlock, IsMarker;
    MarkersAreSane(client);
    MarkersApart(client, body);
    InstructionBlock(ManagedMarkers(client), body);
  }
}
