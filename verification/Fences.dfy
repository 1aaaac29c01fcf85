/** Nested cancellation fences on the main thread, one handler call at a time.

    Entering a fence takes over the cancellation signals one by one, leaving it hands them back one by
    one and then replays what arrived meanwhile to whoever had the signal before. A signal may arrive
    between any two of these steps. */
module Fences {

  type Signal = nat

  /** Either the handler that was active before any fence, or the one of the fence at that nesting depth. */
  datatype Handler = Original | Deferred(depth: nat)

  datatype Phase = Installing(k: nat) | Guarding | Restoring(k: nat) | Replaying

  /** `failed` marks a fence that is being left because the original handler raised in it. */
  datatype Fence = Fence(previous: map<Signal, Handler>, pending: seq<Signal>, phase: Phase, failed: bool)

  /** `arrived`, `ran` and `lost` are histories: every signal so far, those the original handler has
      been called with, and those dropped because an exception cut a replay short. */
  datatype State = State(
    handlers: map<Signal, Handler>,
    fences: seq<Fence>,
    arrived: multiset<Signal>,
    ran: multiset<Signal>,
    lost: multiset<Signal>)

  datatype Event =
    | Open
    | Install
    | Close
    | Restore
    | Replay(raises: bool)
    | Leave
    | Arrive(signal: Signal, raises: bool)

  ghost predicate Distinct(signals: seq<Signal>) {
    |signals| > 0 && forall a, b | 0 <= a < b < |signals| :: signals[a] != signals[b]
  }

  function Top(s: State): Fence
    requires s.fences != []
  {
    s.fences[|s.fences| - 1]
  }

  function WithTop(s: State, f: Fence): State
    requires s.fences != []
  {
    s.(fences := s.fences[..|s.fences| - 1] + [f])
  }

  /** Leave the innermost fence; what it still holds is dropped. */
  function Popped(s: State): State
    requires s.fences != []
  {
    s.(fences := s.fences[..|s.fences| - 1], lost := s.lost + multiset(Top(s).pending))
  }

  /** Call `h` with `signal`: a fence puts it on its list, the original handler runs. */
  function Called(s: State, signal: Signal, h: Handler): State {
    match h
    case Original => s.(ran := s.ran + multiset{signal})
    case Deferred(d) =>
      if d < |s.fences|
      then s.(fences := s.fences[d := s.fences[d].(pending := s.fences[d].pending + [signal])])
      else s
  }

  /** An exception escapes from the original handler at this point of the innermost fence's code. */
  function Raised(s: State): State {
    if s.fences == [] then s
    else match Top(s).phase
      case Installing(k) => WithTop(s, Top(s).(phase := Restoring(k), failed := true))
      case Restoring(k) => WithTop(s, Top(s).(failed := true))
      case Replaying => Popped(s)
      case Guarding => s
  }

  predicate Enabled(signals: seq<Signal>, s: State, e: Event) {
    match e
    case Open => s.fences == [] || Top(s).phase.Guarding?
    case Install =>
      s.fences != [] && Top(s).phase.Installing? && Top(s).phase.k < |signals| && signals[Top(s).phase.k] in s.handlers
    case Close => s.fences != [] && Top(s).phase.Guarding?
    case Restore =>
      && s.fences != [] && Top(s).phase.Restoring? && 0 < Top(s).phase.k <= |signals|
      && signals[Top(s).phase.k - 1] in Top(s).previous
    case Replay(raises) =>
      && s.fences != [] && Top(s).phase.Replaying? && Top(s).pending != [] && Top(s).pending[0] in Top(s).previous
      && (raises ==> Top(s).previous[Top(s).pending[0]].Original?)
    case Leave =>
      s.fences != [] && ((Top(s).phase.Replaying? && Top(s).pending == []) || (Top(s).phase == Restoring(0) && Top(s).failed))
    case Arrive(signal, raises) =>
      signal in signals && signal in s.handlers && (raises ==> s.handlers[signal].Original?)
  }

  function Next(signals: seq<Signal>, s: State, e: Event): State
    requires Enabled(signals, s, e)
  {
    match e
    case Open => s.(fences := s.fences + [Fence(map[], [], Installing(0), false)])
    case Install =>
      var f := Top(s);
      var signal := signals[f.phase.k];
      var g := f.(previous := f.previous[signal := s.handlers[signal]],
                  phase := if f.phase.k + 1 == |signals| then Guarding else Installing(f.phase.k + 1));
      WithTop(s, g).(handlers := s.handlers[signal := Deferred(|s.fences| - 1)])
    case Close => WithTop(s, Top(s).(phase := Restoring(|signals|)))
    case Restore =>
      var f := Top(s);
      var signal := signals[f.phase.k - 1];
      var g := f.(phase := if f.phase.k == 1 && !f.failed then Replaying else Restoring(f.phase.k - 1));
      WithTop(s, g).(handlers := s.handlers[signal := f.previous[signal]])
    case Replay(raises) =>
      var f := Top(s);
      var called := Called(WithTop(s, f.(pending := f.pending[1..])), f.pending[0], f.previous[f.pending[0]]);
      if raises then Raised(called) else called
    case Leave => Popped(s)
    case Arrive(signal, raises) =>
      var called := Called(s.(arrived := s.arrived + multiset{signal}), signal, s.handlers[signal]);
      if raises then Raised(called) else called
  }

  ghost predicate Runs(signals: seq<Signal>, s: State, es: seq<Event>, t: State)
    decreases |es|
  {
    if es == [] then s == t
    else Enabled(signals, s, es[0]) && Runs(signals, Next(signals, s, es[0]), es[1..], t)
  }

  function Unfenced(signals: seq<Signal>): State {
    State(map x | x in signals :: Original, [], multiset{}, multiset{}, multiset{})
  }

  // ---------------------------------------------------------------------------------------------
  // The invariant
  // ---------------------------------------------------------------------------------------------

  /** The handler that was in force before the fence at depth `d` took over. */
  function Outer(d: nat): Handler {
    if d == 0 then Original else Deferred(d - 1)
  }

  /** How many of the signals a fence in this phase has taken over and not handed back. */
  function Taken(n: nat, p: Phase): nat {
    match p
    case Installing(k) => k
    case Guarding => n
    case Restoring(k) => k
    case Replaying => 0
  }

  /** How many of the signals a fence in this phase remembers the previous handler of. */
  function Remembered(n: nat, f: Fence): nat {
    match f.phase
    case Installing(k) => k
    case Restoring(k) => if f.failed then k else n
    case _ => n
  }

  predicate Consistent(signals: seq<Signal>, f: Fence, d: nat) {
    && Taken(|signals|, f.phase) <= |signals|
    && (f.phase.Installing? ==> f.phase.k < |signals|)
    && (forall j | 0 <= j < Remembered(|signals|, f) && j < |signals| ::
          signals[j] in f.previous && f.previous[signals[j]] == Outer(d))
    && (f.failed ==> d == 0 && f.phase.Restoring?)
    && (forall j | 0 <= j < |f.pending| :: f.pending[j] in signals)
  }

  /** The handler in force for the signal at position `j`. */
  function InForce(signals: seq<Signal>, fences: seq<Fence>, j: nat): Handler {
    if fences == [] then Original
    else if j < Taken(|signals|, fences[|fences| - 1].phase) then Deferred(|fences| - 1)
    else Outer(|fences| - 1)
  }

  ghost predicate Shape(signals: seq<Signal>, s: State) {
    && (forall d | 0 <= d < |s.fences| :: Consistent(signals, s.fences[d], d))
    && (forall d | 0 <= d < |s.fences| - 1 :: s.fences[d].phase.Guarding?)
    && (forall j | 0 <= j < |signals| ::
          signals[j] in s.handlers && s.handlers[signals[j]] == InForce(signals, s.fences, j))
  }

  function Waiting(fences: seq<Fence>): multiset<Signal> {
    if fences == [] then multiset{} else Waiting(fences[..|fences| - 1]) + multiset(fences[|fences| - 1].pending)
  }

  /** Every signal that ever arrived was handed to the original handler, was dropped by an exception,
      or is on exactly one pending list. */
  predicate Conserved(s: State) {
    s.arrived == Accounted(s)
  }

  function Accounted(s: State): multiset<Signal> {
    s.ran + s.lost + Waiting(s.fences)
  }

  // ---------------------------------------------------------------------------------------------
  // Every step keeps the invariant
  // ---------------------------------------------------------------------------------------------

  /** Where `Called` puts a signal keeps the shape: lists of deferred signals grow, nothing else moves. */
  lemma CalledKeepsShape(signals: seq<Signal>, s: State, signal: Signal, h: Handler)
    requires Shape(signals, s) && signal in signals
    ensures Shape(signals, Called(s, signal, h))
  {
    var t := Called(s, signal, h);
    forall d | 0 <= d < |t.fences|
      ensures Consistent(signals, t.fences[d], d)
    {
      assert Consistent(signals, s.fences[d], d);
    }
  }

  /** A new innermost fence in place of the old one, handing over exactly what its phase says. */
  lemma WithTopKeepsShape(signals: seq<Signal>, s: State, t: State, f: Fence)
    requires Shape(signals, s) && s.fences != [] && t.fences == s.fences[..|s.fences| - 1] + [f]
    requires Consistent(signals, f, |s.fences| - 1)
    requires forall j | 0 <= j < |signals| ::
               signals[j] in t.handlers && t.handlers[signals[j]] == InForce(signals, t.fences, j)
    ensures Shape(signals, t)
  {
  }

  lemma PoppedKeepsShape(signals: seq<Signal>, s: State)
    requires Shape(signals, s) && s.fences != [] && Taken(|signals|, Top(s).phase) == 0
    ensures Shape(signals, Popped(s))
  {
    var n := |s.fences| - 1;
    assert Popped(s).fences == s.fences[..n];
    if n > 0 {
      assert s.fences[n - 1].phase.Guarding?;
    }
  }

  lemma InstallKeepsShape(signals: seq<Signal>, s: State)
    requires Distinct(signals) && Shape(signals, s) && Enabled(signals, s, Install)
    ensures Shape(signals, Next(signals, s, Install))
  {
    var t := Next(signals, s, Install);
    assert Consistent(signals, Top(s), |s.fences| - 1);
    WithTopKeepsShape(signals, s, t, Top(t));
  }

  lemma RestoreKeepsShape(signals: seq<Signal>, s: State)
    requires Distinct(signals) && Shape(signals, s) && Enabled(signals, s, Restore)
    ensures Shape(signals, Next(signals, s, Restore))
  {
    var t := Next(signals, s, Restore);
    assert Consistent(signals, Top(s), |s.fences| - 1);
    WithTopKeepsShape(signals, s, t, Top(t));
  }

  /** The original handler can only raise where the innermost fence is the outermost one. */
  lemma RaisedKeepsShape(signals: seq<Signal>, s: State)
    requires Shape(signals, s)
    requires s.fences != [] && !Top(s).phase.Guarding? ==> |s.fences| == 1
    ensures Shape(signals, Raised(s))
  {
    if s.fences != [] && (Top(s).phase.Installing? || Top(s).phase.Restoring?) {
      assert Consistent(signals, Top(s), 0);
      WithTopKeepsShape(signals, s, Raised(s), Top(Raised(s)));
    } else if s.fences != [] && Top(s).phase.Replaying? {
      PoppedKeepsShape(signals, s);
    }
  }

  lemma CalledKeepsPhase(s: State, signal: Signal, h: Handler)
    ensures |Called(s, signal, h).fences| == |s.fences|
    ensures s.fences != [] ==> Top(Called(s, signal, h)).phase == Top(s).phase
  {
  }

  lemma OriginalInForce(signals: seq<Signal>, s: State, signal: Signal)
    requires Shape(signals, s) && signal in signals && s.handlers[signal].Original?
    requires s.fences != []
    ensures |s.fences| == 1 && !Top(s).phase.Guarding?
  {
    var j :| 0 <= j < |signals| && signals[j] == signal;
    assert s.handlers[signals[j]] == InForce(signals, s.fences, j);
  }

  lemma ArriveKeepsShape(signals: seq<Signal>, s: State, signal: Signal, raises: bool)
    requires Shape(signals, s) && Enabled(signals, s, Arrive(signal, raises))
    ensures Shape(signals, Next(signals, s, Arrive(signal, raises)))
  {
    hide Consistent, InForce;
    var counted := s.(arrived := s.arrived + multiset{signal});
    var called := Called(counted, signal, s.handlers[signal]);
    assert Shape(signals, counted);
    CalledKeepsShape(signals, counted, signal, s.handlers[signal]);
    CalledKeepsPhase(counted, signal, s.handlers[signal]);
    if raises {
      if s.fences != [] {
        OriginalInForce(signals, s, signal);
      }
      hide Shape;
      RaisedKeepsShape(signals, called);
    }
  }

  lemma ReplayKeepsShape(signals: seq<Signal>, s: State, raises: bool)
    requires Shape(signals, s) && Enabled(signals, s, Replay(raises))
    ensures Shape(signals, Next(signals, s, Replay(raises)))
  {
    var f := Top(s);
    var rest := WithTop(s, f.(pending := f.pending[1..]));
    assert Consistent(signals, f, |s.fences| - 1);
    assert f.pending[0] in signals;
    WithTopKeepsShape(signals, s, rest, Top(rest));
    hide Consistent, InForce, Shape;
    CalledKeepsShape(signals, rest, f.pending[0], f.previous[f.pending[0]]);
    CalledKeepsPhase(rest, f.pending[0], f.previous[f.pending[0]]);
    if raises {
      ReplayRaisesOutermost(signals, s);
      RaisedKeepsShape(signals, Called(rest, f.pending[0], f.previous[f.pending[0]]));
    }
  }

  lemma ReplayRaisesOutermost(signals: seq<Signal>, s: State)
    requires Shape(signals, s) && Enabled(signals, s, Replay(true))
    ensures |s.fences| == 1
  {
    var f := Top(s);
    assert Consistent(signals, f, |s.fences| - 1);
    var j :| 0 <= j < |signals| && signals[j] == f.pending[0];
    assert f.previous[signals[j]] == Outer(|s.fences| - 1);
  }

  lemma StepKeepsShape(signals: seq<Signal>, s: State, e: Event)
    requires Distinct(signals) && Shape(signals, s) && Enabled(signals, s, e)
    ensures Shape(signals, Next(signals, s, e))
  {
    match e
    case Open =>
      var t := Next(signals, s, e);
      assert forall d | 0 <= d < |s.fences| :: t.fences[d] == s.fences[d];
    case Close =>
      var t := Next(signals, s, e);
      assert Consistent(signals, Top(s), |s.fences| - 1);
      WithTopKeepsShape(signals, s, t, Top(t));
    case Install => InstallKeepsShape(signals, s);
    case Restore => RestoreKeepsShape(signals, s);
    case Replay(raises) => ReplayKeepsShape(signals, s, raises);
    case Leave => PoppedKeepsShape(signals, s);
    case Arrive(signal, raises) => ArriveKeepsShape(signals, s, signal, raises);
  }

  lemma Rearranged(a: multiset<Signal>, b: multiset<Signal>, p: multiset<Signal>, q: multiset<Signal>, r: multiset<Signal>)
    requires a + p == b + q
    ensures (a + r) + p == (b + r) + q
  {
    assert (a + r) + p == (a + p) + r;
    assert (b + r) + q == (b + q) + r;
  }

  lemma Cancelled(a: multiset<Signal>, b: multiset<Signal>, p: multiset<Signal>)
    requires a + p == b + p
    ensures a == b
  {
    forall x
      ensures a[x] == b[x]
    {
      assert (a + p)[x] == (b + p)[x];
    }
  }

  lemma {:induction false} WaitingUpdate(fences: seq<Fence>, d: nat, f: Fence)
    requires d < |fences|
    ensures Waiting(fences[d := f]) + multiset(fences[d].pending) == Waiting(fences) + multiset(f.pending)
    decreases |fences|
  {
    var n := |fences| - 1;
    var g := fences[d := f];
    if d == n {
      assert g[..n] == fences[..n];
    } else {
      var inner := fences[..n];
      WaitingUpdate(inner, d, f);
      assert g[..n] == inner[d := f] && g[n] == fences[n];
      Rearranged(Waiting(inner[d := f]), Waiting(inner), multiset(fences[d].pending), multiset(f.pending),
                 multiset(fences[n].pending));
    }
  }

  /** A call accounts for its signal once: on one pending list, or as run. */
  lemma CalledAccounts(s: State, signal: Signal, h: Handler)
    requires h.Deferred? ==> h.depth < |s.fences|
    ensures var t := Called(s, signal, h);
            Accounted(t) == Accounted(s) + multiset{signal} && t.arrived == s.arrived
  {
    hide Waiting;
    if h.Deferred? {
      var f := s.fences[h.depth];
      var g := f.(pending := f.pending + [signal]);
      WaitingUpdate(s.fences, h.depth, g);
      assert multiset(g.pending) == multiset(f.pending) + multiset{signal};
      Cancelled(Waiting(s.fences[h.depth := g]), Waiting(s.fences) + multiset{signal}, multiset(f.pending));
    }
  }

  lemma WithTopAccounts(s: State, f: Fence)
    requires s.fences != [] && f.pending == Top(s).pending
    ensures Waiting(WithTop(s, f).fences) == Waiting(s.fences)
  {
    assert WithTop(s, f).fences[..|s.fences| - 1] == s.fences[..|s.fences| - 1];
  }

  lemma PoppedAccounts(s: State)
    requires s.fences != []
    ensures Popped(s).lost + Waiting(Popped(s).fences) == s.lost + Waiting(s.fences)
  {
  }

  lemma RaisedAccounts(s: State)
    ensures Accounted(Raised(s)) == Accounted(s) && Raised(s).arrived == s.arrived
  {
    hide Waiting;
    if s.fences != [] {
      match Top(s).phase
      case Installing(k) => WithTopAccounts(s, Top(s).(phase := Restoring(k), failed := true));
      case Restoring(k) => WithTopAccounts(s, Top(s).(failed := true));
      case Replaying =>
        var t := Popped(s);
        PoppedAccounts(s);
        assert Accounted(t) == t.ran + (t.lost + Waiting(t.fences));
        assert Accounted(s) == s.ran + (s.lost + Waiting(s.fences));
      case Guarding =>
    }
  }

  lemma ReplayAccounts(signals: seq<Signal>, s: State, raises: bool)
    requires Shape(signals, s) && Enabled(signals, s, Replay(raises)) && Conserved(s)
    ensures Conserved(Next(signals, s, Replay(raises)))
  {
    var f := Top(s);
    var rest := WithTop(s, f.(pending := f.pending[1..]));
    FirstTaken(s);
    ReplaysToOuter(signals, s);
    hide Shape, Accounted;
    CalledAccounts(rest, f.pending[0], f.previous[f.pending[0]]);
    RaisedAccounts(Called(rest, f.pending[0], f.previous[f.pending[0]]));
  }

  /** Taking the first pending signal of the innermost fence. */
  lemma FirstTaken(s: State)
    requires s.fences != [] && Top(s).pending != []
    ensures var f := Top(s); var rest := WithTop(s, f.(pending := f.pending[1..]));
            Accounted(rest) + multiset{f.pending[0]} == Accounted(s) && rest.arrived == s.arrived
  {
    var f := Top(s);
    var rest := WithTop(s, f.(pending := f.pending[1..]));
    assert rest.fences[..|s.fences| - 1] == s.fences[..|s.fences| - 1];
    assert f.pending == [f.pending[0]] + f.pending[1..];
    assert Waiting(rest.fences) + multiset{f.pending[0]} == Waiting(s.fences);
  }

  lemma ReplaysToOuter(signals: seq<Signal>, s: State)
    requires Shape(signals, s) && s.fences != [] && Top(s).phase.Replaying? && Top(s).pending != [] && Top(s).pending[0] in Top(s).previous
    ensures Top(s).previous[Top(s).pending[0]] == Outer(|s.fences| - 1)
  {
    var f := Top(s);
    assert Consistent(signals, f, |s.fences| - 1);
    var j :| 0 <= j < |signals| && signals[j] == f.pending[0];
    assert f.previous[signals[j]] == Outer(|s.fences| - 1);
  }

  lemma ArriveAccounts(signals: seq<Signal>, s: State, signal: Signal, raises: bool)
    requires Shape(signals, s) && Enabled(signals, s, Arrive(signal, raises)) && Conserved(s)
    ensures Conserved(Next(signals, s, Arrive(signal, raises)))
  {
    var counted := s.(arrived := s.arrived + multiset{signal});
    var j :| 0 <= j < |signals| && signals[j] == signal;
    assert s.handlers[signals[j]] == InForce(signals, s.fences, j);
    assert Accounted(counted) == Accounted(s);
    hide Shape, Accounted;
    CalledAccounts(counted, signal, s.handlers[signal]);
    RaisedAccounts(Called(counted, signal, s.handlers[signal]));
  }

  lemma StepConserves(signals: seq<Signal>, s: State, e: Event)
    requires Shape(signals, s) && Enabled(signals, s, e) && Conserved(s)
    ensures Conserved(Next(signals, s, e))
  {
    hide Shape;
    match e
    case Open => assert Next(signals, s, e).fences[..|s.fences|] == s.fences;
    case Install => WithTopAccounts(s, Top(Next(signals, s, e)));
    case Close => WithTopAccounts(s, Top(Next(signals, s, e)));
    case Restore => WithTopAccounts(s, Top(Next(signals, s, e)));
    case Replay(raises) => ReplayAccounts(signals, s, raises);
    case Leave => PoppedAccounts(s);
    case Arrive(signal, raises) => ArriveAccounts(signals, s, signal, raises);
  }

  lemma {:induction false} RunKeeps(signals: seq<Signal>, s: State, es: seq<Event>, t: State)
    requires Distinct(signals) && Shape(signals, s) && Conserved(s) && Runs(signals, s, es, t)
    ensures Shape(signals, t) && Conserved(t)
    decreases |es|
  {
    hide Shape, Conserved, Enabled, Next;
    if es != [] {
      StepKeepsShape(signals, s, es[0]);
      StepConserves(signals, s, es[0]);
      RunKeeps(signals, Next(signals, s, es[0]), es[1..], t);
    }
  }

  // ---------------------------------------------------------------------------------------------
  // What the fences guarantee
  // ---------------------------------------------------------------------------------------------

  /** The body of the outermost fence, with everything it calls, is running. */
  predicate Fenced(s: State) {
    s.fences != [] && s.fences[0].phase.Guarding?
  }

  /** The outermost fence is not left during these events. */
  ghost predicate StaysInside(signals: seq<Signal>, s: State, es: seq<Event>)
    decreases |es|
  {
    es != [] ==>
      && !(es[0].Close? && |s.fences| == 1)
      && (Enabled(signals, s, es[0]) ==> StaysInside(signals, Next(signals, s, es[0]), es[1..]))
  }

  /** Calling a fence's handler, which is never the original one inside, only makes lists longer. */
  lemma FencedCall(s: State, signal: Signal, d: nat)
    requires Fenced(s)
    ensures var t := Called(s, signal, Deferred(d)); Fenced(t) && t.ran == s.ran && t.lost == s.lost
  {
  }

  lemma FencedStep(signals: seq<Signal>, s: State, e: Event)
    requires Shape(signals, s) && Fenced(s) && Enabled(signals, s, e) && !(e.Close? && |s.fences| == 1)
    ensures var t := Next(signals, s, e); Fenced(t) && t.ran == s.ran && t.lost == s.lost
  {
    hide Called, Raised;
    if e.Arrive? {
      var j :| 0 <= j < |signals| && signals[j] == e.signal;
      assert s.handlers[signals[j]] == InForce(signals, s.fences, j);
      FencedCall(s.(arrived := s.arrived + multiset{e.signal}), e.signal, s.handlers[e.signal].depth);
    } else if e.Replay? {
      assert Consistent(signals, Top(s), |s.fences| - 1);
      var f := Top(s);
      var j :| 0 <= j < |signals| && signals[j] == f.pending[0];
      assert f.previous[signals[j]] == Outer(|s.fences| - 1);
      FencedCall(WithTop(s, f.(pending := f.pending[1..])), f.pending[0], f.previous[f.pending[0]].depth);
    } else if e.Leave? {
      assert Consistent(signals, Top(s), |s.fences| - 1);
    }
  }

  /** Inside the outermost fence, at any nesting depth and for any pattern of arrivals, the handler that
      was active on entry never runs and no signal is dropped: each one that arrives is put on exactly
      one pending list and stays on exactly one until the outermost fence is left. */
  lemma NothingRunsInside(signals: seq<Signal>, s: State, es: seq<Event>, t: State)
    requires Distinct(signals) && Shape(signals, s) && Conserved(s) && Fenced(s)
    requires Runs(signals, s, es, t) && StaysInside(signals, s, es)
    ensures Fenced(t) && t.ran == s.ran && t.lost == s.lost
    ensures Waiting(t.fences) == Waiting(s.fences) + (t.arrived - s.arrived)
  {
    InsideKeeps(signals, s, es, t);
    RunKeeps(signals, s, es, t);
    ArrivedGrows(signals, s, es, t);
  }

  lemma {:induction false} InsideKeeps(signals: seq<Signal>, s: State, es: seq<Event>, t: State)
    requires Distinct(signals) && Shape(signals, s) && Fenced(s)
    requires Runs(signals, s, es, t) && StaysInside(signals, s, es)
    ensures Fenced(t) && t.ran == s.ran && t.lost == s.lost
    decreases |es|
  {
    hide Shape, Fenced, Enabled, Next;
    if es != [] {
      StepKeepsShape(signals, s, es[0]);
      FencedStep(signals, s, es[0]);
      InsideKeeps(signals, Next(signals, s, es[0]), es[1..], t);
    }
  }

  lemma StepArrives(signals: seq<Signal>, s: State, e: Event)
    requires Enabled(signals, s, e)
    ensures s.arrived <= Next(signals, s, e).arrived
  {
  }

  lemma {:induction false} ArrivedGrows(signals: seq<Signal>, s: State, es: seq<Event>, t: State)
    requires Runs(signals, s, es, t)
    ensures s.arrived <= t.arrived
    decreases |es|
  {
    hide Enabled, Next;
    if es != [] {
      StepArrives(signals, s, es[0]);
      ArrivedGrows(signals, Next(signals, s, es[0]), es[1..], t);
    }
  }

  /** Once all fences are left the original handlers are back, and every signal that ever arrived has been
      handed to one of them exactly once, or was dropped because a handler raised. */
  lemma FencesLeaveNoTrace(signals: seq<Signal>, es: seq<Event>, t: State)
    requires Distinct(signals) && Runs(signals, Unfenced(signals), es, t) && t.fences == []
    ensures forall j | 0 <= j < |signals| :: signals[j] in t.handlers && t.handlers[signals[j]].Original?
    ensures t.arrived == t.ran + t.lost
  {
    assert Shape(signals, Unfenced(signals));
    RunKeeps(signals, Unfenced(signals), es, t);
    assert forall j | 0 <= j < |signals| :: t.handlers[signals[j]] == InForce(signals, t.fences, j);
  }

  predicate Quiet(es: seq<Event>) {
    forall k | 0 <= k < |es| :: (es[k].Replay? || es[k].Arrive?) ==> !es[k].raises
  }

  ghost predicate Whole(s: State) {
    s.lost == multiset{} && forall d | 0 <= d < |s.fences| :: !s.fences[d].failed
  }

  lemma QuietStep(signals: seq<Signal>, s: State, e: Event)
    requires Whole(s) && Enabled(signals, s, e) && ((e.Replay? || e.Arrive?) ==> !e.raises)
    ensures Whole(Next(signals, s, e))
  {
  }

  lemma {:induction false} QuietRun(signals: seq<Signal>, s: State, es: seq<Event>, t: State)
    requires Whole(s) && Quiet(es) && Runs(signals, s, es, t)
    ensures Whole(t)
    decreases |es|
  {
    hide Whole, Enabled, Next;
    if es != [] {
      QuietStep(signals, s, es[0]);
      QuietRun(signals, Next(signals, s, es[0]), es[1..], t);
    }
  }

  /** While no handler raises, leaving all fences delivers every signal exactly once and drops none. */
  lemma QuietFencesDeliverAll(signals: seq<Signal>, es: seq<Event>, t: State)
    requires Distinct(signals) && Runs(signals, Unfenced(signals), es, t) && t.fences == [] && Quiet(es)
    ensures t.ran == t.arrived
  {
    FencesLeaveNoTrace(signals, es, t);
    QuietRun(signals, Unfenced(signals), es, t);
  }

  // ---------------------------------------------------------------------------------------------
  // No fence is ever stuck
  // ---------------------------------------------------------------------------------------------

  /** A fence that has handed everything back and does not replay has failed. */
  predicate Cut(f: Fence) {
    f.phase == Restoring(0) ==> f.failed
  }

  ghost predicate AllCut(fences: seq<Fence>) {
    forall d | 0 <= d < |fences| :: Cut(fences[d])
  }

  lemma CalledKeepsCut(s: State, signal: Signal, h: Handler)
    requires AllCut(s.fences)
    ensures AllCut(Called(s, signal, h).fences)
  {
  }

  lemma RaisedKeepsCut(s: State)
    requires AllCut(s.fences)
    ensures AllCut(Raised(s).fences)
  {
  }

  lemma ReplayKeepsCut(signals: seq<Signal>, s: State, raises: bool)
    requires AllCut(s.fences) && Enabled(signals, s, Replay(raises))
    ensures AllCut(Next(signals, s, Replay(raises)).fences)
  {
    var f := Top(s);
    var taken := WithTop(s, f.(pending := f.pending[1..]));
    assert AllCut(taken.fences);
    CalledKeepsCut(taken, f.pending[0], f.previous[f.pending[0]]);
    RaisedKeepsCut(Called(taken, f.pending[0], f.previous[f.pending[0]]));
    hide AllCut, Called, Raised;
  }

  lemma ArriveKeepsCut(signals: seq<Signal>, s: State, signal: Signal, raises: bool)
    requires AllCut(s.fences) && Enabled(signals, s, Arrive(signal, raises))
    ensures AllCut(Next(signals, s, Arrive(signal, raises)).fences)
  {
    hide AllCut, Called, Raised;
    var arrived := s.(arrived := s.arrived + multiset{signal});
    CalledKeepsCut(arrived, signal, s.handlers[signal]);
    RaisedKeepsCut(Called(arrived, signal, s.handlers[signal]));
  }

  lemma StepKeepsCut(signals: seq<Signal>, s: State, e: Event)
    requires Distinct(signals) && AllCut(s.fences) && Enabled(signals, s, e)
    ensures AllCut(Next(signals, s, e).fences)
  {
    hide Called, Raised;
    if e.Replay? {
      ReplayKeepsCut(signals, s, e.raises);
    } else if e.Arrive? {
      ArriveKeepsCut(signals, s, e.signal, e.raises);
    }
  }

  lemma {:induction false} RunKeepsCut(signals: seq<Signal>, s: State, es: seq<Event>, t: State)
    requires Distinct(signals) && AllCut(s.fences) && Runs(signals, s, es, t)
    ensures AllCut(t.fences)
    decreases |es|
  {
    hide AllCut, Enabled, Next, Distinct;
    if es != [] {
      StepKeepsCut(signals, s, es[0]);
      RunKeepsCut(signals, Next(signals, s, es[0]), es[1..], t);
    }
  }

  /** What the innermost fence does next: it installs handler after handler, restores them the other way round when its body
      is over, replays what it has put off, and leaves. */
  function OwnStep(f: Fence): Event {
    match f.phase
    case Installing(_) => Install
    case Guarding => Close
    case Restoring(k) => if k == 0 then Leave else Restore
    case Replaying => if f.pending == [] then Leave else Replay(false)
  }

  lemma CanStep(signals: seq<Signal>, s: State)
    requires Shape(signals, s) && AllCut(s.fences) && s.fences != []
    ensures Enabled(signals, s, OwnStep(Top(s)))
  {
    var f := Top(s);
    assert Consistent(signals, f, |s.fences| - 1) && Cut(f);
    match f.phase
    case Installing(k) =>
      assert signals[k] in s.handlers;
    case Restoring(k) =>
      if k > 0 {
        assert signals[k - 1] in f.previous;
      }
    case Replaying =>
      if f.pending != [] {
        assert f.pending[0] in signals;
        var j :| 0 <= j < |signals| && signals[j] == f.pending[0];
        assert signals[j] in f.previous;
      }
    case _ =>
  }

  /** In every reachable state the innermost fence can take its next step, whatever has been raised before. */
  lemma NeverStuck(signals: seq<Signal>, es: seq<Event>, s: State)
    requires Distinct(signals) && Runs(signals, Unfenced(signals), es, s) && s.fences != []
    ensures Enabled(signals, s, OwnStep(Top(s)))
  {
    hide Enabled, Next, Runs, OwnStep;
    assert Shape(signals, Unfenced(signals)) && Conserved(Unfenced(signals)) && AllCut(Unfenced(signals).fences);
    RunKeeps(signals, Unfenced(signals), es, s);
    RunKeepsCut(signals, Unfenced(signals), es, s);
    CanStep(signals, s);
  }

  function Rank(p: Phase): nat {
    match p
    case Installing(_) => 3
    case Guarding => 2
    case Restoring(_) => 1
    case Replaying => 0
  }

  /** The steps that a phase still has. */
  function Left(n: nat, f: Fence): nat {
    match f.phase
    case Installing(k) => if k < n then n - k else 0
    case Guarding => 0
    case Restoring(k) => k
    case Replaying => |f.pending|
  }

  lemma StepLeads(signals: seq<Signal>, s: State)
    requires Shape(signals, s) && s.fences != [] && Enabled(signals, s, OwnStep(Top(s)))
    ensures var t := Next(signals, s, OwnStep(Top(s)));
            || |t.fences| == |s.fences| - 1
            || (|t.fences| == |s.fences|
                && (Rank(Top(t).phase) < Rank(Top(s).phase)
                    || (Rank(Top(t).phase) == Rank(Top(s).phase) && Left(|signals|, Top(t)) < Left(|signals|, Top(s)))))
  {
    if OwnStep(Top(s)).Replay? {
      var f := Top(s);
      assert Consistent(signals, f, |s.fences| - 1) && f.pending[0] in signals;
      var j :| 0 <= j < |signals| && signals[j] == f.pending[0];
      assert f.previous[signals[j]] == Outer(|s.fences| - 1);
      ReplayShortens(s, f, f.pending[0], f.previous[f.pending[0]]);
    }
  }

  lemma ReplayShortens(s: State, f: Fence, signal: Signal, h: Handler)
    requires s.fences != [] && f == Top(s) && f.pending != [] && f.phase.Replaying? && h == Outer(|s.fences| - 1)
    ensures var t := Called(WithTop(s, f.(pending := f.pending[1..])), signal, h);
            |t.fences| == |s.fences| && Top(t).phase.Replaying? && |Top(t).pending| == |f.pending| - 1
  {
  }

  /** From every reachable state all fences can be left, without a handler being called that raises. */
  lemma {:induction false} CanLeave(signals: seq<Signal>, s: State) returns (es: seq<Event>, t: State)
    requires Distinct(signals) && Shape(signals, s) && AllCut(s.fences)
    ensures Runs(signals, s, es, t) && Quiet(es) && t.fences == []
    decreases |s.fences|, if s.fences == [] then 0 else Rank(Top(s).phase), if s.fences == [] then 0 else Left(|signals|, Top(s))
  {
    if s.fences == [] {
      return [], s;
    }
    hide Shape, AllCut, Enabled, Next, Top, Rank, Left;
    CanStep(signals, s);
    var e := OwnStep(Top(s));
    var m := Next(signals, s, e);
    StepKeepsShape(signals, s, e);
    StepKeepsCut(signals, s, e);
    StepLeads(signals, s);
    var rest;
    rest, t := CanLeave(signals, m);
    es := [e] + rest;
    assert es[1..] == rest;
  }
}
