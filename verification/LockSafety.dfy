/** What the lock protocol guarantees over whole runs. */
module LockSafety {
  import opened Wrappers
  import opened LockTable
  import opened LockProtocol
  import opened LockInvariant

  lemma Reachable(es: seq<Event>, s: State)
    requires Runs(Initial, es, s)
    ensures Invariant(s)
  {
    assert Invariant(Initial);
    RunKeeps(Initial, es, s);
  }

  // ---------------------------------------------------------------------------------------------
  // Mutual exclusion
  // ---------------------------------------------------------------------------------------------

  /** Two activations anywhere that both believe they own the kernel lock have different files locked:
      threads, processes, nesting within one thread, timeouts, crashes and a replaced path included. */
  lemma MutualExclusion(es: seq<Event>, s: State, i: nat, j: nat)
    requires Runs(Initial, es, s)
    requires i in s.invs && j in s.invs && i != j && Guarding(s.invs[i]) && Guarding(s.invs[j])
    ensures s.invs[i].fd != s.invs[j].fd
  {
    Reachable(es, s);
    Standing(s, i);
    Standing(s, j);
  }

  /** At any moment at most one activation for a key would pass the lock identity check. */
  lemma OneValidOwner(es: seq<Event>, s: State, i: nat, j: nat)
    requires Runs(Initial, es, s)
    requires i in s.invs && j in s.invs && Guarding(s.invs[i]) && Guarding(s.invs[j])
    requires s.invs[i].key == s.invs[j].key && Named(s.invs[i], s.names) && Named(s.invs[j], s.names)
    ensures i == j
  {
    if i != j {
      MutualExclusion(es, s, i, j);
    }
  }

  /** Nobody replaces or removes the lock path. */
  predicate Untampered(es: seq<Event>) {
    forall k | 0 <= k < |es| :: !es[k].Replace? && !es[k].Unlink?
  }

  /** Every open descriptor is on the file its path names. */
  ghost predicate Anchored(invs: Invs, names: map<string, nat>) {
    forall i | i in invs && invs[i].fd.Some? :: Named(invs[i], names)
  }

  lemma ActionKeepsAnchored(s: State, i: nat, a: Action)
    requires Anchored(s.invs, s.names) && i in s.invs && Allowed(s, s.invs[i], a)
    ensures Anchored(s.invs[i := Moved(s, s.invs[i], a)], NamesAfter(s.names, s.invs[i], a))
  {
    assert s.invs[i].fd.Some? ==> Named(s.invs[i], s.names);
  }

  lemma StepKeepsAnchored(s: State, e: Event)
    requires Anchored(s.invs, s.names) && Enabled(s, e) && !e.Replace? && !e.Unlink?
    ensures Anchored(Next(s, e).invs, Next(s, e).names)
  {
    if e.Step? {
      hide Anchored, Moved, NamesAfter, Allowed;
      ActionKeepsAnchored(s, e.i, e.action);
    } else {
    }
  }

  lemma {:induction false} RunKeepsAnchored(s: State, es: seq<Event>, t: State)
    requires Anchored(s.invs, s.names) && Untampered(es) && Runs(s, es, t)
    ensures Anchored(t.invs, t.names)
    decreases |es|
  {
    hide Anchored, Enabled, Next;
    if es != [] {
      StepKeepsAnchored(s, es[0]);
      RunKeepsAnchored(Next(s, es[0]), es[1..], t);
    }
  }

  /** While the lock path stays in place, at most one activation per key is inside the guarded region. */
  lemma OneOwnerPerKey(es: seq<Event>, s: State, i: nat, j: nat)
    requires Runs(Initial, es, s) && Untampered(es)
    requires i in s.invs && j in s.invs && Guarding(s.invs[i]) && Guarding(s.invs[j])
    requires s.invs[i].key == s.invs[j].key
    ensures i == j
  {
    RunKeepsAnchored(Initial, es, s);
    OneValidOwner(es, s, i, j);
  }

  /** What an activation can do at each point of its code: wait for its thread lock or give up; open what the path names, or a
      new file; find it short enough and still named, initialise it, lock it, find it still named; at each of these fail; and
      then leave and clean up. */
  lemma ActionsExactly(s: State, v: Inv, a: Action)
    ensures Allowed(s, v, a) <==>
              match v.pc
              case Acquiring =>
                || (a == Acquire && (v.lock in s.held ==> s.held[v.lock].owner == v.thread))
                || (a == TimeOut && v.lock in s.held && s.held[v.lock].owner != v.thread)
              case Opening => a == Fail || (a.Open? && if v.key in s.names then a.ino == s.names[v.key] else a.ino !in s.sizes)
              case Checking =>
                a == Fail || (a == Check && v.key in s.names && v.fd == Some(s.names[v.key]) && v.fd.value in s.sizes && s.sizes[v.fd.value] <= 1)
              case Initialising => a == Fail || (a == Initialise && v.fd.Some? && v.fd.value in s.sizes)
              case Locking => a == Fail || (a == TryLock && v.fd.Some? && v.fd.value !in s.flock)
              case Validating => a == Fail || (a == Validate && v.key in s.names && v.fd == Some(s.names[v.key]))
              case Critical => a == Leave
              case Unlocking => a.Unlock?
              case Closing => a.Close?
              case Releasing => a == Release
              case Returning => false
  {
  }

  /** Whoever enters the guarded body has just found the lock path naming the file that it has locked, of one byte. */
  lemma EntersValidated(run: seq<Event>, s: State, e: Event, i: nat)
    requires Runs(Initial, run, s) && Enabled(s, e)
    requires i in s.invs && !s.invs[i].pc.Critical? && i in Next(s, e).invs && Next(s, e).invs[i].pc.Critical?
    ensures var v, t := Next(s, e).invs[i], Next(s, e);
            && v.key in t.names && v.fd == Some(t.names[v.key])
            && v.fd.value in t.flock && t.flock[v.fd.value] == Holder(i, v.thread.pid)
            && v.fd.value in t.sizes && t.sizes[v.fd.value] == 1
  {
    hide Invariant, Runs, TopOf, Moved, Allowed, HeldAfter, NamesAfter, SizesAfter, FlockAfter;
    Reachable(run, s);
    Standing(s, i);
    AllBelowNext(s, e, i);
    assert e == Step(i, Validate) by {
      if e.Step? {
        OnlyValidateEnters(s, s.invs[i], e.action);
      }
    }
    ValidateChangesNothing(s, s.invs[i], i);
  }

  /** An activation that has not just entered moves only by its own steps. */
  lemma AllBelowNext(s: State, e: Event, i: nat)
    requires Enabled(s, e) && i in s.invs && i < s.nextInv && i in Next(s, e).invs
    ensures (e.Step? && e.i == i) || Next(s, e).invs[i] == s.invs[i]
  {
    hide TopOf, Moved, Allowed, HeldAfter, NamesAfter, SizesAfter, FlockAfter;
  }

  lemma OnlyValidateEnters(s: State, v: Inv, a: Action)
    requires !v.pc.Critical? && Moved(s, v, a).pc.Critical?
    ensures a == Validate
  {
  }

  lemma ValidateChangesNothing(s: State, v: Inv, i: nat)
    ensures NamesAfter(s.names, v, Validate) == s.names && SizesAfter(s.sizes, v, Validate) == s.sizes
    ensures FlockAfter(s.flock, i, v, Validate) == s.flock && Moved(s, v, Validate) == v.(pc := Critical)
    ensures Allowed(s, v, Validate) ==> v.pc.Validating? && Named(v, s.names)
  {
  }

  // ---------------------------------------------------------------------------------------------
  // The sentinel file
  // ---------------------------------------------------------------------------------------------

  lemma ActionKeepsSentinel(sizes: map<nat, nat>, v: Inv, a: Action, ino: nat)
    requires ino in sizes && sizes[ino] <= 1
    ensures ino in SizesAfter(sizes, v, a) && sizes[ino] <= SizesAfter(sizes, v, a)[ino] <= 1
  {
  }

  lemma StepKeepsSentinel(s: State, e: Event, ino: nat)
    requires Enabled(s, e) && ino in s.sizes && s.sizes[ino] <= 1
    ensures ino in Next(s, e).sizes && s.sizes[ino] <= Next(s, e).sizes[ino] <= 1
  {
    match e
    case Step(i, a) =>
      hide SizesAfter, HeldAfter, NamesAfter, FlockAfter, Moved, Allowed;
      ActionKeepsSentinel(s.sizes, s.invs[i], a, ino);
    case _ =>
  }

  /** However many openers initialise the sentinel at once, it never shrinks and never grows past one byte. */
  lemma {:induction false} SentinelStaysOneByte(s: State, es: seq<Event>, t: State, ino: nat)
    requires Invariant(s) && Runs(s, es, t) && ino in s.sizes && s.sizes[ino] <= 1
    ensures ino in t.sizes && s.sizes[ino] <= t.sizes[ino] <= 1
    decreases |es|
  {
    hide Invariant, Enabled, Next;
    if es != [] {
      StepKeepsSentinel(s, es[0], ino);
      StepKeeps(s, es[0]);
      SentinelStaysOneByte(Next(s, es[0]), es[1..], t, ino);
    }
  }

  /** Whoever is inside the guarded body has locked a file of exactly one byte. */
  lemma OwnersLockOneByte(es: seq<Event>, s: State, i: nat)
    requires Runs(Initial, es, s) && i in s.invs && s.invs[i].pc.Critical?
    ensures s.invs[i].fd.Some? && s.invs[i].fd.value in s.sizes && s.sizes[s.invs[i].fd.value] == 1
  {
    Reachable(es, s);
    Standing(s, i);
  }

  // ---------------------------------------------------------------------------------------------
  // The reference count
  // ---------------------------------------------------------------------------------------------

  /** In every reachable state a key is in a process's table exactly while that process has an activation
      between borrow and return; the entry counts those activations, and all of them hold its lock. */
  lemma TableCountsBorrowers(es: seq<Event>, s: State, slot: Slot)
    requires Runs(Initial, es, s)
    ensures slot in s.table <==> Borrowers(s.invs, slot) != {}
    ensures slot in s.table ==> s.table[slot].users == |Borrowers(s.invs, slot)|
    ensures forall i | i in Borrowers(s.invs, slot) :: slot in s.table && s.invs[i].lock == s.table[slot].lock
  {
    Reachable(es, s);
    assert slot in s.table ==> s.table[slot].users == |Borrowers(s.invs, slot)| > 0;
  }

  ghost predicate Distinct(table: map<Slot, Entry>) {
    forall a, b | a in table && b in table && table[a].lock == table[b].lock :: a == b
  }

  lemma StepKeepsDistinct(s: State, e: Event)
    requires Bounded(s) && Distinct(s.table) && Enabled(s, e)
    ensures Distinct(Next(s, e).table)
  {
  }

  /** No two keys, and no two processes, ever share a thread lock. */
  lemma {:induction false} LocksStayDistinct(s: State, es: seq<Event>, t: State)
    requires Invariant(s) && Distinct(s.table) && Runs(s, es, t)
    ensures Distinct(t.table)
    decreases |es|
  {
    hide Distinct, Enabled, Next, Shared, Counted, Owned, Stacked, Phased, Excluded, Foreign, OneByte;
    if es != [] {
      StepKeepsDistinct(s, es[0]);
      StepKeeps(s, es[0]);
      LocksStayDistinct(Next(s, es[0]), es[1..], t);
    }
  }

  /** Handing a borrow back is never ignored, and takes exactly one user off the entry. */
  lemma EachReturnCounts(es: seq<Event>, s: State, i: nat)
    requires Runs(Initial, es, s) && Enabled(s, Return(i))
    ensures var slot := SlotOf(s.invs[i]);
            && slot in s.table && s.table[slot].lock == s.invs[i].lock
            && (if s.table[slot].users == 1 then slot !in ReturnStep(s, i).table
                else slot in ReturnStep(s, i).table && ReturnStep(s, i).table[slot].users == s.table[slot].users - 1)
  {
    hide Bounded, Owned, Stacked, Phased, Excluded, Foreign, OneByte;
    Reachable(es, s);
    EntryCounted(s.invs, s.table, i);
  }

  lemma EntryCounted(invs: Invs, table: map<Slot, Entry>, i: nat)
    requires Shared(invs, table) && Counted(invs, table) && i in invs
    ensures SlotOf(invs[i]) in table && table[SlotOf(invs[i])].lock == invs[i].lock && table[SlotOf(invs[i])].users > 0
  {
  }

  /** The release in the cleanup frees the thread lock exactly when this activation's acquire succeeded. */
  lemma NeverReleasesAnotherHold(es: seq<Event>, s: State, i: nat)
    requires Runs(Initial, es, s) && i in s.invs && s.invs[i].pc.Releasing?
    ensures var lock := s.invs[i].lock;
            var after := HeldAfter(s.held, s.invs[i], Release);
            && (!s.invs[i].holds ==> after == s.held)
            && (s.invs[i].holds ==>
                  && Owns(s.invs[i], s.held)
                  && (if lock in after then after[lock].count + 1 == s.held[lock].count else s.held[lock].count == 1))
  {
    hide Bounded, Shared, Counted, Stacked, Phased, Excluded, OneByte;
    Reachable(es, s);
    ReleasesOnlyItsOwn(s.invs, s.held, i);
    assert s.invs[i].holds ==> s.held[s.invs[i].lock].count > 0;
  }

  // ---------------------------------------------------------------------------------------------
  // Leak freedom
  // ---------------------------------------------------------------------------------------------

  function Cleanup(i: nat, unlocked: bool, closed: bool): seq<Event> {
    [Step(i, Unlock(unlocked)), Step(i, Close(closed)), Step(i, Release), Return(i)]
  }

  /** Once a cleanup starts it can run to the end whichever unlock or close fails: the activation is gone,
      its borrow is handed back once, and so is its hold on the thread lock if it had one. */
  lemma CleanupAlwaysFinishes(s: State, i: nat, unlocked: bool, closed: bool) returns (t: State)
    requires TopOf(s.invs, i) && s.invs[i].pc.Unlocking?
    ensures Runs(s, Cleanup(i, unlocked, closed), t)
    ensures t.invs == s.invs - {i}
    ensures t.table == Returned(s.table, SlotOf(s.invs[i]), s.invs[i].lock)
    ensures t.held == HeldAfter(s.held, s.invs[i], Release)
  {
    var s1 := ActionStep(s, i, Unlock(unlocked));
    var s2 := ActionStep(s1, i, Close(closed));
    var s3 := ActionStep(s2, i, Release);
    t := ReturnStep(s3, i);
    assert s3.invs - {i} == s.invs - {i};
    RunsFour(s, Step(i, Unlock(unlocked)), Step(i, Close(closed)), Step(i, Release), Return(i), s1, s2, s3);
  }

  lemma RunsFour(s: State, a: Event, b: Event, c: Event, d: Event, s1: State, s2: State, s3: State)
    requires Enabled(s, a) && s1 == Next(s, a) && Enabled(s1, b) && s2 == Next(s1, b)
    requires Enabled(s2, c) && s3 == Next(s2, c) && Enabled(s3, d)
    ensures Runs(s, [a, b, c, d], Next(s3, d))
  {
    hide Enabled, Next;
    assert [d][1..] == [] && [c, d][1..] == [d] && [b, c, d][1..] == [c, d] && [a, b, c, d][1..] == [b, c, d];
    assert Runs(s3, [d], Next(s3, d));
    assert Runs(s2, [c, d], Next(s3, d));
    assert Runs(s1, [b, c, d], Next(s3, d));
  }

  /** The owner of a kernel lock is an activation that is still on its way to closing the descriptor. */
  predicate Closer(invs: Invs, ino: nat, h: Holder) {
    && h.inv in invs && invs[h.inv].fd == Some(ino) && invs[h.inv].thread.pid == h.pid
    && (Guarding(invs[h.inv]) || invs[h.inv].pc.Closing?)
  }

  ghost predicate Tended(invs: Invs, flock: map<nat, Holder>) {
    forall ino | ino in flock :: Closer(invs, ino, flock[ino])
  }

  /** No close of a lock descriptor fails. */
  predicate Closes(es: seq<Event>) {
    forall k | 0 <= k < |es| :: es[k].Step? && es[k].action.Close? ==> es[k].action.ok
  }

  lemma ActionKeepsTended(s: State, i: nat, a: Action)
    requires Tended(s.invs, s.flock) && i in s.invs && Phase(s.invs[i]) && Allowed(s, s.invs[i], a) && (a.Close? ==> a.ok)
    ensures Tended(s.invs[i := Moved(s, s.invs[i], a)], FlockAfter(s.flock, i, s.invs[i], a))
  {
    var flock := FlockAfter(s.flock, i, s.invs[i], a);
    forall ino | ino in flock
      ensures Closer(s.invs[i := Moved(s, s.invs[i], a)], ino, flock[ino])
    {
      assert ino in s.flock ==> Closer(s.invs, ino, s.flock[ino]);
    }
  }

  lemma StepKeepsTended(s: State, e: Event)
    requires Invariant(s) && Tended(s.invs, s.flock) && Enabled(s, e) && Closes([e])
    ensures Tended(Next(s, e).invs, Next(s, e).flock)
  {
    hide Shared, Counted, Owned, Stacked, Phased, Excluded, Foreign, OneByte;
    match e
    case Step(i, a) =>
      assert [e][0] == e;
      Standing(s, i);
      ActionKeepsTended(s, i, a);
    case _ =>
  }

  lemma {:induction false} RunKeepsTended(s: State, es: seq<Event>, t: State)
    requires Invariant(s) && Tended(s.invs, s.flock) && Runs(s, es, t) && Closes(es)
    ensures Tended(t.invs, t.flock)
    decreases |es|
  {
    hide Invariant, Enabled, Next, Tended;
    if es != [] {
      assert Closes([es[0]]) && Closes(es[1..]);
      StepKeepsTended(s, es[0]);
      StepKeeps(s, es[0]);
      RunKeepsTended(Next(s, es[0]), es[1..], t);
    }
  }

  /** When every activation is over nothing is left: no table entry, no held thread lock and,
      unless a close failed in a process that still lives, no kernel lock. */
  lemma NothingLeaks(es: seq<Event>, s: State)
    requires Runs(Initial, es, s) && s.invs == map[]
    ensures s.table == map[] && s.held == map[]
    ensures Closes(es) ==> s.flock == map[]
  {
    Reachable(es, s);
    assert forall slot :: Borrowers(s.invs, slot) == {};
    assert forall l :: Owners(s.invs, l) == {};
    if Closes(es) {
      assert Invariant(Initial);
      RunKeepsTended(Initial, es, s);
    }
  }

  // ---------------------------------------------------------------------------------------------
  // Why the sentinel is never removed
  // ---------------------------------------------------------------------------------------------

  lemma {:induction false} RunsOneMore(s: State, es: seq<Event>, m: State, e: Event)
    requires Runs(s, es, m) && Enabled(m, e)
    ensures Runs(s, es + [e], Next(m, e))
    decreases |es|
  {
    hide Enabled, Next;
    if es == [] {
      assert es + [e] == [e] && [e][1..] == [];
      assert Runs(Next(m, e), [], Next(m, e));
    } else {
      RunsOneMore(Next(s, es[0]), es[1..], m, e);
      assert (es + [e])[1..] == es[1..] + [e];
    }
  }

  /** Behind `run` only threads enter and activation `i` takes steps. */
  ghost predicate Adds(run: seq<Event>, next: seq<Event>, i: nat) {
    run <= next && forall k | |run| <= k < |next| :: next[k].Enter? || (next[k].Step? && next[k].i == i)
  }

  lemma AddsMore(a: seq<Event>, b: seq<Event>, c: seq<Event>, i: nat)
    requires Adds(a, b, i) && Adds(b, c, i)
    ensures Adds(a, c, i)
  {
    assert forall k | 0 <= k < |b| :: c[k] == b[k];
  }

  /** The innermost activation `i`, standing at `v`, takes one more step. */
  lemma Proceed(origin: State, run: seq<Event>, s: State, others: Invs, i: nat, v: Inv, a: Action)
    returns (next: seq<Event>, t: State, w: Inv)
    requires Runs(origin, run, s) && s.invs == others[i := v] && TopOf(s.invs, i) && Allowed(s, v, a)
    ensures Runs(origin, next, t) && Adds(run, next, i) && w == Moved(s, v, a) && t.invs == others[i := w] && TopOf(t.invs, i)
    ensures t.nextInv == s.nextInv && t.table == s.table && t.names == NamesAfter(s.names, v, a)
    ensures t.sizes == SizesAfter(s.sizes, v, a) && t.flock == FlockAfter(s.flock, i, v, a)
  {
    t, w := ActionStep(s, i, a), Moved(s, v, a);
    next := run + [Step(i, a)];
    assert s.invs[i] == v && s.invs[i := w] == others[i := w];
    RunsOneMore(origin, run, s, Step(i, a));
    MovedSameInvocation(s, v, a);
  }

  /** The file that opening the lock path gives: the one that is there, if it holds at most one byte, or a new one. */
  predicate Opens(s: State, key: string, ino: nat) {
    if key in s.names then ino == s.names[key] && ino in s.sizes && s.sizes[ino] <= 1 else ino !in s.sizes
  }

  lemma OpensAlone(origin: State, run: seq<Event>, s: State, thread: Thread, key: string, ino: nat)
    returns (next: seq<Event>, t: State)
    requires Runs(origin, run, s) && Invariant(s)
    requires forall j | j in s.invs :: s.invs[j].thread != thread
    requires Slot(thread.pid, key) !in s.table && Opens(s, key, ino)
    ensures Runs(origin, next, t) && Adds(run, next, s.nextInv) && TopOf(t.invs, s.nextInv)
    ensures t.invs == s.invs[s.nextInv := Inv(thread, key, s.nextLock, Checking, true, Some(ino), false)]
    ensures t.nextInv == s.nextInv + 1 && t.table == s.table[Slot(thread.pid, key) := Entry(s.nextLock, 1)]
    ensures t.names == s.names[key := ino] && t.flock == s.flock
    ensures t.sizes == if ino in s.sizes then s.sizes else s.sizes[ino := 0]
  {
    var i := s.nextInv;
    assert i !in s.invs && s.nextLock !in s.held;
    hide Invariant, Runs;
    t := EnterStep(s, thread, key);
    RunsOneMore(origin, run, s, Enter(thread, key));
    next := run + [Enter(thread, key)];
    var v := t.invs[i];
    assert TopOf(t.invs, i) && Adds(run, next, i);
    hide TopOf, Borrowed, Adds;
    var acquired;
    var entered := next;
    acquired, t, v := Proceed(origin, entered, t, s.invs, i, v, Acquire);
    next, t, v := Proceed(origin, acquired, t, s.invs, i, v, Open(ino));
    AddsMore(run, entered, acquired, i);
    AddsMore(run, acquired, next, i);
  }

  lemma LocksAlone(origin: State, run: seq<Event>, s: State, i: nat, v: Inv, ino: nat) returns (next: seq<Event>, t: State)
    requires Runs(origin, run, s) && i in s.invs && TopOf(s.invs, i) && s.invs[i] == v
    requires v.pc.Checking? && v.fd == Some(ino) && Named(v, s.names)
    requires ino in s.sizes && s.sizes[ino] <= 1 && ino !in s.flock
    ensures Runs(origin, next, t) && Adds(run, next, i)
    ensures t.invs == s.invs[i := v.(pc := Critical, locked := true)]
    ensures t.nextInv == s.nextInv && t.table == s.table && t.names == s.names && t.sizes == s.sizes[ino := 1]
    ensures t.flock == s.flock[ino := Holder(i, v.thread.pid)]
  {
    hide Runs, TopOf, Adds;
    var w := v;
    assert s.invs == s.invs[i := v];
    var checked, tried;
    checked, t, w := Proceed(origin, run, s, s.invs, i, w, Check);
    var ready := checked;
    if s.sizes[ino] == 0 {
      ready, t, w := Proceed(origin, checked, t, s.invs, i, w, Initialise);
      AddsMore(run, checked, ready, i);
    }
    assert t.sizes == s.sizes[ino := 1];
    tried, t, w := Proceed(origin, ready, t, s.invs, i, w, TryLock);
    AddsMore(run, ready, tried, i);
    next, t, w := Proceed(origin, tried, t, s.invs, i, w, Validate);
    AddsMore(run, tried, next, i);
  }

  /** With nobody in the way an activation gets all the way into its guarded body, whether the sentinel is there, with
      its one byte or still without, or has to be created. */
  lemma EntersAlone(origin: State, run: seq<Event>, s: State, thread: Thread, key: string, ino: nat)
    returns (next: seq<Event>, t: State)
    requires Invariant(origin) && Runs(origin, run, s)
    requires forall j | j in s.invs :: s.invs[j].thread != thread
    requires Slot(thread.pid, key) !in s.table && Opens(s, key, ino) && ino !in s.flock
    ensures Runs(origin, next, t) && Adds(run, next, s.nextInv)
    ensures t.invs == s.invs[s.nextInv := Inv(thread, key, s.nextLock, Critical, true, Some(ino), true)]
    ensures t.nextInv == s.nextInv + 1 && t.table == s.table[Slot(thread.pid, key) := Entry(s.nextLock, 1)]
    ensures t.names == s.names[key := ino] && t.sizes == s.sizes[ino := 1]
    ensures t.flock == s.flock[ino := Holder(s.nextInv, thread.pid)]
  {
    hide Invariant, Runs, TopOf, Adds;
    RunKeeps(origin, run, s);
    var open;
    open, t := OpensAlone(origin, run, s, thread, key, ino);
    next, t := LocksAlone(origin, open, t, s.nextInv, t.invs[s.nextInv], ino);
    AddsMore(run, open, next, s.nextInv);
  }

  /** One thread inside its body. */
  lemma FirstOwner() returns (run: seq<Event>, s: State)
    ensures Runs(Initial, run, s)
    ensures s.invs == map[0 := Inv(Thread(0, 0), "config.lock", 0, Critical, true, Some(0), true)]
    ensures s.nextInv == 1 && s.table == map[Slot(0, "config.lock") := Entry(0, 1)]
    ensures s.names == map["config.lock" := 0] && s.sizes == map[0 := 1] && s.flock == map[0 := Holder(0, 0)]
  {
    assert Runs(Initial, [], Initial) && Invariant(Initial);
    hide Runs, Adds;
    run, s := EntersAlone(Initial, [], Initial, Thread(0, 0), "config.lock", 0);
  }

  /** Unlinking the sentinel under its owner splits the lock: a second process walks in beside the first. */
  lemma RemovedSentinelSplitsTheLock() returns (run: seq<Event>, s: State)
    ensures Runs(Initial, run, s)
    ensures 0 in s.invs && 1 in s.invs && s.invs[0].key == s.invs[1].key
    ensures s.invs[0].pc.Critical? && s.invs[1].pc.Critical?
  {
    assert Invariant(Initial);
    hide Runs, Adds, Invariant;
    run, s := FirstOwner();
    RunsOneMore(Initial, run, s, Unlink("config.lock"));
    run, s := run + [Unlink("config.lock")], Next(s, Unlink("config.lock"));
    run, s := EntersAlone(Initial, run, s, Thread(1, 0), "config.lock", 1);
  }

  /** So does putting another file in its place. */
  lemma ReplacedSentinelSplitsTheLock(size: nat) returns (run: seq<Event>, s: State)
    requires size <= 1
    ensures Runs(Initial, run, s)
    ensures 0 in s.invs && 1 in s.invs && s.invs[0].key == s.invs[1].key
    ensures s.invs[0].pc.Critical? && s.invs[1].pc.Critical?
  {
    assert Invariant(Initial);
    hide Runs, Adds, Invariant;
    run, s := FirstOwner();
    var swap := Replace("config.lock", 1, size);
    RunsOneMore(Initial, run, s, swap);
    run, s := run + [swap], Next(s, swap);
    run, s := EntersAlone(Initial, run, s, Thread(1, 0), "config.lock", 1);
  }
}
