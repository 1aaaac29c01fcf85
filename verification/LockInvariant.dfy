/** What every reachable state of the lock protocol satisfies. */
module LockInvariant {
  import opened Wrappers
  import opened LockTable
  import opened LockProtocol

  // ---------------------------------------------------------------------------------------------
  // The invariant, stated over the components of the state
  // ---------------------------------------------------------------------------------------------

  function Borrowers(invs: Invs, slot: Slot): set<nat> {
    set i | i in invs && SlotOf(invs[i]) == slot
  }

  function Owners(invs: Invs, lock: LockId): set<nat> {
    set i | i in invs && invs[i].lock == lock && invs[i].holds
  }

  ghost predicate Bounded(s: State) {
    && (forall i | i in s.invs :: i < s.nextInv)
    && (forall slot | slot in s.table :: s.table[slot].lock < s.nextLock)
    && (forall ino | ino in s.flock :: s.flock[ino].inv < s.nextInv)
    && (forall l | l in s.held :: l < s.nextLock)
    && (forall key | key in s.names :: s.names[key] in s.sizes)
  }

  /** Every live activation shares the one lock object its process has for the key. */
  ghost predicate Shared(invs: Invs, table: map<Slot, Entry>) {
    forall i | i in invs :: SlotOf(invs[i]) in table && table[SlotOf(invs[i])].lock == invs[i].lock
  }

  /** A table entry exists exactly while somebody has borrowed it, and counts its borrowers. */
  ghost predicate Counted(invs: Invs, table: map<Slot, Entry>) {
    forall slot | slot in table :: table[slot].users == |Borrowers(invs, slot)| > 0
  }

  /** A thread lock is held exactly by the activations whose acquire succeeded, all of one thread. */
  ghost predicate Owned(invs: Invs, held: map<LockId, Hold>) {
    && (forall i | i in invs && invs[i].holds :: invs[i].lock in held && held[invs[i].lock].owner == invs[i].thread)
    && (forall l | l in held :: held[l].count == |Owners(invs, l)| > 0)
  }

  /** Only the innermost activation of a thread can be outside its guarded body. */
  ghost predicate Stacked(invs: Invs) {
    forall i | i in invs && !invs[i].pc.Critical? :: TopOf(invs, i)
  }

  predicate Phase(v: Inv) {
    match v.pc
    case Acquiring => !v.holds && v.fd.None? && !v.locked
    case Opening => v.holds && v.fd.None? && !v.locked
    case Checking => v.holds && v.fd.Some? && !v.locked
    case Initialising => v.holds && v.fd.Some? && !v.locked
    case Locking => v.holds && v.fd.Some? && !v.locked
    case Validating => v.holds && v.fd.Some? && v.locked
    case Critical => v.holds && v.fd.Some? && v.locked
    case Returning => !v.holds && (v.locked ==> v.fd.Some?)
    case _ => (v.locked ==> v.fd.Some?) && (v.fd.Some? ==> v.holds)
  }

  ghost predicate Phased(invs: Invs) {
    forall i | i in invs :: Phase(invs[i])
  }

  /** The activation believes it owns the kernel lock and has not tried to unlock it yet. */
  predicate Guarding(v: Inv) {
    v.locked && v.fd.Some? && (v.pc == Validating || v.pc == Critical || v.pc == Unlocking)
  }

  predicate Locked(flock: map<nat, Holder>, i: nat, v: Inv) {
    Guarding(v) ==> v.fd.value in flock && flock[v.fd.value] == Holder(i, v.thread.pid)
  }

  ghost predicate Excluded(invs: Invs, flock: map<nat, Holder>) {
    forall i | i in invs :: Locked(flock, i, invs[i])
  }

  /** Its acquire failed, and it is cleaning up. */
  predicate Spurned(v: Inv) {
    !v.holds && (v.pc == Unlocking || v.pc == Closing || v.pc == Releasing)
  }

  ghost predicate Free(invs: Invs, thread: Thread, lock: LockId) {
    forall j | j in invs && invs[j].thread == thread && invs[j].lock == lock :: !invs[j].holds
  }

  /** After a failed acquire no activation of the same thread holds that lock. */
  ghost predicate Foreign(invs: Invs) {
    forall i | i in invs && Spurned(invs[i]) :: Free(invs, invs[i].thread, invs[i].lock)
  }

  predicate Sized(v: Inv, sizes: map<nat, nat>) {
    v.fd.Some? ==>
      && v.fd.value in sizes
      && (v.pc.Initialising? ==> sizes[v.fd.value] <= 1)
      && (v.pc == Locking || v.pc == Validating || v.pc == Critical ==> sizes[v.fd.value] == 1)
  }

  /** A checked lock file is at most one byte long, and exactly one byte once it is initialised. */
  ghost predicate OneByte(invs: Invs, sizes: map<nat, nat>) {
    forall i | i in invs :: Sized(invs[i], sizes)
  }

  ghost predicate Invariant(s: State) {
    && Bounded(s) && Shared(s.invs, s.table) && Counted(s.invs, s.table) && Owned(s.invs, s.held)
    && Stacked(s.invs) && Phased(s.invs) && Excluded(s.invs, s.flock) && Foreign(s.invs) && OneByte(s.invs, s.sizes)
  }

  // ---------------------------------------------------------------------------------------------
  // A step of one activation
  // ---------------------------------------------------------------------------------------------

  lemma ActionKeepsBounds(s: State, i: nat, a: Action)
    requires Bounded(s) && Shared(s.invs, s.table) && i in s.invs && (a.TryLock? ==> i < s.nextInv)
    ensures Bounded(ActionStep(s, i, a))
  {
    assert s.table[SlotOf(s.invs[i])].lock == s.invs[i].lock;
  }

  lemma AdvanceKeepsTable(invs: Invs, table: map<Slot, Entry>, i: nat, v: Inv)
    requires Shared(invs, table) && Counted(invs, table) && i in invs
    requires v.thread == invs[i].thread && v.key == invs[i].key && v.lock == invs[i].lock
    ensures Shared(invs[i := v], table) && Counted(invs[i := v], table)
  {
    forall slot
      ensures Borrowers(invs[i := v], slot) == Borrowers(invs, slot)
    {
    }
  }

  lemma AdvanceKeepsOwned(invs: Invs, held: map<LockId, Hold>, i: nat, v: Inv)
    requires Owned(invs, held) && i in invs
    requires v.thread == invs[i].thread && v.lock == invs[i].lock && v.holds == invs[i].holds
    ensures Owned(invs[i := v], held)
  {
    forall l
      ensures Owners(invs[i := v], l) == Owners(invs, l)
    {
    }
  }

  lemma AcquireKeepsOwned(invs: Invs, held: map<LockId, Hold>, i: nat, v: Inv)
    requires Owned(invs, held) && i in invs && !invs[i].holds && v == invs[i].(pc := Opening, holds := true)
    requires v.lock in held ==> held[v.lock].owner == v.thread
    ensures Owned(invs[i := v], HeldAfter(held, invs[i], Acquire))
  {
    assert v.lock !in held ==> Owners(invs, v.lock) == {};
    assert Owners(invs[i := v], v.lock) == Owners(invs, v.lock) + {i};
    forall l | l != v.lock
      ensures Owners(invs[i := v], l) == Owners(invs, l)
    {
    }
  }

  lemma ReleaseKeepsOwned(invs: Invs, held: map<LockId, Hold>, i: nat, v: Inv)
    requires Owned(invs, held) && i in invs && invs[i].holds && v == invs[i].(pc := Returning, holds := false)
    ensures Owned(invs[i := v], HeldAfter(held, invs[i], Release))
  {
    var after := invs[i := v];
    assert Owners(after, v.lock) == Owners(invs, v.lock) - {i};
    forall l | l != v.lock
      ensures Owners(after, l) == Owners(invs, l)
    {
    }
    if held[v.lock].count <= 1 {
      assert |Owners(after, v.lock)| == 0;
      forall j | j in after && after[j].holds
        ensures after[j].lock != v.lock
      {
        assert j !in Owners(after, v.lock);
      }
    }
  }

  /** The release in the cleanup finds the thread lock owned by its thread exactly when its own acquire succeeded. */
  lemma ReleasesOnlyItsOwn(invs: Invs, held: map<LockId, Hold>, i: nat)
    requires Owned(invs, held) && Foreign(invs) && i in invs && invs[i].pc.Releasing?
    ensures invs[i].holds <==> Owns(invs[i], held)
  {
  }

  lemma ActionKeepsOwned(s: State, i: nat, a: Action)
    requires Owned(s.invs, s.held) && Foreign(s.invs) && i in s.invs && Phase(s.invs[i]) && Allowed(s, s.invs[i], a)
    ensures Owned(s.invs[i := Moved(s, s.invs[i], a)], HeldAfter(s.held, s.invs[i], a))
  {
    hide Owned, Foreign;
    var v := Moved(s, s.invs[i], a);
    if a.Acquire? {
      AcquireKeepsOwned(s.invs, s.held, i, v);
    } else if a.Release? {
      ReleasesOnlyItsOwn(s.invs, s.held, i);
      if s.invs[i].holds {
        ReleaseKeepsOwned(s.invs, s.held, i, v);
      } else {
        AdvanceKeepsOwned(s.invs, s.held, i, v);
      }
    } else {
      AdvanceKeepsOwned(s.invs, s.held, i, v);
    }
  }

  lemma AdvanceKeepsStacked(invs: Invs, i: nat, v: Inv)
    requires Stacked(invs) && TopOf(invs, i) && v.thread == invs[i].thread
    ensures Stacked(invs[i := v])
  {
  }

  lemma AdvanceKeepsForeign(invs: Invs, i: nat, v: Inv)
    requires Foreign(invs) && i in invs && v.thread == invs[i].thread && v.lock == invs[i].lock
    requires (v.holds ==> invs[i].holds) && (Spurned(v) ==> Spurned(invs[i]))
    ensures Foreign(invs[i := v])
  {
  }

  /** A new hold spurns nobody: an outer activation of the thread is in its guarded body, not cleaning up. */
  lemma AcquireKeepsForeign(invs: Invs, i: nat, v: Inv)
    requires Foreign(invs) && Stacked(invs) && TopOf(invs, i) && invs[i].pc.Acquiring?
    requires v == invs[i].(pc := Opening, holds := true)
    ensures Foreign(invs[i := v])
  {
    forall a | a in invs && a != i && invs[a].thread == v.thread
      ensures !Spurned(invs[a])
    {
      assert a < i && invs[a].pc.Critical?;
    }
  }

  /** The thread that timed out holds nothing: somebody else owns the lock. */
  lemma TimeOutKeepsForeign(invs: Invs, held: map<LockId, Hold>, i: nat, v: Inv)
    requires Foreign(invs) && Owned(invs, held) && i in invs && v == invs[i].(pc := Unlocking)
    requires v.lock in held && held[v.lock].owner != v.thread
    ensures Foreign(invs[i := v])
  {
  }

  lemma ActionKeepsForeign(s: State, i: nat, a: Action)
    requires Foreign(s.invs) && Stacked(s.invs) && Owned(s.invs, s.held) && TopOf(s.invs, i)
    requires Phase(s.invs[i]) && Allowed(s, s.invs[i], a)
    ensures Foreign(s.invs[i := Moved(s, s.invs[i], a)])
  {
    hide Owned, Foreign, Stacked;
    var v := Moved(s, s.invs[i], a);
    if a.Acquire? {
      AcquireKeepsForeign(s.invs, i, v);
    } else if a.TimeOut? {
      TimeOutKeepsForeign(s.invs, s.held, i, v);
    } else {
      AdvanceKeepsForeign(s.invs, i, v);
    }
  }

  lemma ActionKeepsPhase(s: State, i: nat, a: Action)
    requires Phased(s.invs) && i in s.invs && Allowed(s, s.invs[i], a)
    ensures Phased(s.invs[i := Moved(s, s.invs[i], a)])
  {
    assert Phase(s.invs[i]);
    assert Phase(Moved(s, s.invs[i], a));
  }

  lemma ActionKeepsExcluded(s: State, i: nat, a: Action)
    requires Excluded(s.invs, s.flock) && i in s.invs && Phase(s.invs[i]) && Allowed(s, s.invs[i], a)
    ensures Excluded(s.invs[i := Moved(s, s.invs[i], a)], FlockAfter(s.flock, i, s.invs[i], a))
  {
    assert Locked(s.flock, i, s.invs[i]);
    forall j | j in s.invs && j != i
      ensures Locked(FlockAfter(s.flock, i, s.invs[i], a), j, s.invs[j])
    {
      assert Locked(s.flock, j, s.invs[j]);
    }
  }

  lemma ActionKeepsSizes(s: State, i: nat, a: Action)
    requires OneByte(s.invs, s.sizes) && i in s.invs && Allowed(s, s.invs[i], a)
    ensures OneByte(s.invs[i := Moved(s, s.invs[i], a)], SizesAfter(s.sizes, s.invs[i], a))
  {
    assert Sized(s.invs[i], s.sizes);
    forall j | j in s.invs && j != i
      ensures Sized(s.invs[j], SizesAfter(s.sizes, s.invs[i], a))
    {
      assert Sized(s.invs[j], s.sizes);
    }
  }

  lemma MovedSameInvocation(s: State, v: Inv, a: Action)
    ensures Moved(s, v, a).thread == v.thread && Moved(s, v, a).key == v.key && Moved(s, v, a).lock == v.lock
  {
  }

  /** What the invariant says of one live activation. */
  lemma Standing(s: State, i: nat)
    requires Invariant(s) && i in s.invs
    ensures i < s.nextInv && Phase(s.invs[i]) && Sized(s.invs[i], s.sizes) && Locked(s.flock, i, s.invs[i])
    ensures !s.invs[i].pc.Critical? ==> TopOf(s.invs, i)
  {
  }

  lemma ActionKeeps(s: State, i: nat, a: Action)
    requires Invariant(s) && Enabled(s, Step(i, a))
    ensures Invariant(ActionStep(s, i, a))
  {
    hide Bounded, Shared, Counted, Owned, Stacked, Phased, Excluded, Foreign, OneByte;
    hide Moved, Allowed, HeldAfter, NamesAfter, SizesAfter, FlockAfter, Phase;
    Standing(s, i);
    MovedSameInvocation(s, s.invs[i], a);
    ActionKeepsBounds(s, i, a);
    AdvanceKeepsTable(s.invs, s.table, i, Moved(s, s.invs[i], a));
    ActionKeepsOwned(s, i, a);
    AdvanceKeepsStacked(s.invs, i, Moved(s, s.invs[i], a));
    ActionKeepsPhase(s, i, a);
    ActionKeepsExcluded(s, i, a);
    ActionKeepsForeign(s, i, a);
    ActionKeepsSizes(s, i, a);
  }

  // ---------------------------------------------------------------------------------------------
  // Entering, returning, crashing and tampering
  // ---------------------------------------------------------------------------------------------

  lemma EnterKeepsBounds(s: State, thread: Thread, key: string)
    requires Bounded(s)
    ensures Bounded(EnterStep(s, thread, key))
  {
  }

  lemma EnterKeepsTable(invs: Invs, table: map<Slot, Entry>, i: nat, v: Inv, nextLock: nat)
    requires Shared(invs, table) && Counted(invs, table) && i !in invs
    requires v.lock == Borrowed(table, SlotOf(v), nextLock)[SlotOf(v)].lock
    ensures Shared(invs[i := v], Borrowed(table, SlotOf(v), nextLock))
    ensures Counted(invs[i := v], Borrowed(table, SlotOf(v), nextLock))
  {
    var slot := SlotOf(v);
    OneBorrowerMore(invs, i, v);
    assert slot !in table ==> Borrowers(invs, slot) == {};
    var borrowers := Borrowers(invs, slot);
    assert i !in borrowers && |borrowers + {i}| == |borrowers| + 1;
    hide Borrowers;
  }

  lemma OneBorrowerMore(invs: Invs, i: nat, v: Inv)
    requires i !in invs
    ensures Borrowers(invs[i := v], SlotOf(v)) == Borrowers(invs, SlotOf(v)) + {i}
    ensures forall other | other != SlotOf(v) :: Borrowers(invs[i := v], other) == Borrowers(invs, other)
  {
    forall other | other != SlotOf(v)
      ensures Borrowers(invs[i := v], other) == Borrowers(invs, other)
    {
    }
  }

  lemma EnterKeepsOwned(invs: Invs, held: map<LockId, Hold>, i: nat, v: Inv)
    requires Owned(invs, held) && i !in invs && !v.holds
    ensures Owned(invs[i := v], held)
  {
    forall l
      ensures Owners(invs[i := v], l) == Owners(invs, l)
    {
    }
  }

  lemma EnterKeepsControl(invs: Invs, i: nat, v: Inv)
    requires Stacked(invs) && Phased(invs) && Foreign(invs)
    requires forall j | j in invs :: j < i && (invs[j].thread == v.thread ==> invs[j].pc.Critical?)
    requires v.pc.Acquiring? && Phase(v)
    ensures Stacked(invs[i := v]) && Phased(invs[i := v]) && Foreign(invs[i := v])
  {
  }

  lemma EnterKeepsFiles(invs: Invs, flock: map<nat, Holder>, sizes: map<nat, nat>, i: nat, v: Inv)
    requires Excluded(invs, flock) && OneByte(invs, sizes) && v.fd.None?
    ensures Excluded(invs[i := v], flock) && OneByte(invs[i := v], sizes)
  {
  }

  lemma EnterKeeps(s: State, thread: Thread, key: string)
    requires Invariant(s) && Enabled(s, Enter(thread, key))
    ensures Invariant(EnterStep(s, thread, key))
  {
    assert s.nextInv !in s.invs && forall j | j in s.invs :: j < s.nextInv;
    hide Bounded, Shared, Counted, Owned, Stacked, Phased, Excluded, Foreign, OneByte;
    var t := EnterStep(s, thread, key);
    var v := t.invs[s.nextInv];
    EnterKeepsBounds(s, thread, key);
    EnterKeepsTable(s.invs, s.table, s.nextInv, v, s.nextLock);
    EnterKeepsOwned(s.invs, s.held, s.nextInv, v);
    EnterKeepsControl(s.invs, s.nextInv, v);
    EnterKeepsFiles(s.invs, s.flock, s.sizes, s.nextInv, v);
  }

  lemma ReturnKeepsTable(invs: Invs, table: map<Slot, Entry>, i: nat)
    requires Shared(invs, table) && Counted(invs, table) && i in invs
    ensures Shared(invs - {i}, Returned(table, SlotOf(invs[i]), invs[i].lock))
    ensures Counted(invs - {i}, Returned(table, SlotOf(invs[i]), invs[i].lock))
  {
    var slot := SlotOf(invs[i]);
    var after := invs - {i};
    assert Borrowers(after, slot) == Borrowers(invs, slot) - {i};
    forall other | other != slot
      ensures Borrowers(after, other) == Borrowers(invs, other)
    {
    }
    if table[slot].users <= 1 {
      assert |Borrowers(after, slot)| == 0;
      forall j | j in after
        ensures SlotOf(after[j]) != slot
      {
        assert j !in Borrowers(after, slot);
      }
    }
  }

  lemma ReturnKeepsOwned(invs: Invs, held: map<LockId, Hold>, i: nat)
    requires Owned(invs, held) && i in invs && !invs[i].holds
    ensures Owned(invs - {i}, held)
  {
    forall l
      ensures Owners(invs - {i}, l) == Owners(invs, l)
    {
    }
  }

  lemma ReturnKeepsRest(s: State, i: nat)
    requires Stacked(s.invs) && Phased(s.invs) && Foreign(s.invs) && Excluded(s.invs, s.flock) && OneByte(s.invs, s.sizes)
    ensures var invs := s.invs - {i};
            Stacked(invs) && Phased(invs) && Foreign(invs) && Excluded(invs, s.flock) && OneByte(invs, s.sizes)
  {
  }

  lemma ReturnKeepsBounds(s: State, i: nat)
    requires Bounded(s) && i in s.invs
    ensures Bounded(ReturnStep(s, i))
  {
  }

  lemma ReturnKeeps(s: State, i: nat)
    requires Invariant(s) && Enabled(s, Return(i))
    ensures Invariant(ReturnStep(s, i))
  {
    hide Bounded, Shared, Counted, Owned, Stacked, Phased, Excluded, Foreign, OneByte;
    Standing(s, i);
    ReturnKeepsBounds(s, i);
    ReturnKeepsTable(s.invs, s.table, i);
    ReturnKeepsOwned(s.invs, s.held, i);
    ReturnKeepsRest(s, i);
  }

  lemma CrashKeepsBounds(s: State, pid: nat)
    requires Bounded(s)
    ensures Bounded(CrashStep(s, pid))
  {
  }

  lemma CrashKeepsTable(s: State, pid: nat)
    requires Shared(s.invs, s.table) && Counted(s.invs, s.table)
    ensures Shared(CrashStep(s, pid).invs, CrashStep(s, pid).table)
    ensures Counted(CrashStep(s, pid).invs, CrashStep(s, pid).table)
  {
    var t := CrashStep(s, pid);
    forall slot | slot in t.table
      ensures Borrowers(t.invs, slot) == Borrowers(s.invs, slot)
    {
    }
  }

  lemma CrashKeepsOwned(s: State, pid: nat)
    requires Owned(s.invs, s.held)
    ensures Owned(CrashStep(s, pid).invs, CrashStep(s, pid).held)
  {
    var t := CrashStep(s, pid);
    forall l | l in t.held
      ensures Owners(t.invs, l) == Owners(s.invs, l)
    {
    }
  }

  lemma CrashKeepsControl(s: State, pid: nat)
    requires Stacked(s.invs) && Phased(s.invs) && Foreign(s.invs)
    ensures Stacked(CrashStep(s, pid).invs) && Phased(CrashStep(s, pid).invs) && Foreign(CrashStep(s, pid).invs)
  {
  }

  lemma CrashKeepsFiles(s: State, pid: nat)
    requires Excluded(s.invs, s.flock) && OneByte(s.invs, s.sizes)
    ensures Excluded(CrashStep(s, pid).invs, CrashStep(s, pid).flock)
    ensures OneByte(CrashStep(s, pid).invs, CrashStep(s, pid).sizes)
  {
  }

  lemma CrashKeeps(s: State, pid: nat)
    requires Invariant(s)
    ensures Invariant(CrashStep(s, pid))
  {
    hide Bounded, Shared, Counted, Owned, Stacked, Phased, Excluded, Foreign, OneByte;
    CrashKeepsBounds(s, pid);
    CrashKeepsTable(s, pid);
    CrashKeepsOwned(s, pid);
    CrashKeepsControl(s, pid);
    CrashKeepsFiles(s, pid);
  }

  /** Whoever replaces or removes the lock path changes no open file. */
  lemma TamperKeeps(s: State, e: Event)
    requires Invariant(s) && Enabled(s, e) && (e.Replace? || e.Unlink?)
    ensures Invariant(Next(s, e))
  {
    TamperKeepsFiles(s, e);
    hide Bounded, Shared, Counted, Owned, Stacked, Phased, Excluded, Foreign, OneByte;
  }

  lemma TamperKeepsFiles(s: State, e: Event)
    requires Bounded(s) && OneByte(s.invs, s.sizes) && Enabled(s, e) && (e.Replace? || e.Unlink?)
    ensures Bounded(Next(s, e)) && OneByte(Next(s, e).invs, Next(s, e).sizes)
  {
    forall i | i in s.invs
      ensures Sized(s.invs[i], Next(s, e).sizes)
    {
      assert Sized(s.invs[i], s.sizes);
    }
  }

  /** Every step of every process, every crash and every tampering with the path keeps the invariant. */
  lemma StepKeeps(s: State, e: Event)
    requires Invariant(s) && Enabled(s, e)
    ensures Invariant(Next(s, e))
  {
    hide Invariant;
    match e
    case Enter(thread, key) => EnterKeeps(s, thread, key);
    case Step(i, a) => ActionKeeps(s, i, a);
    case Return(i) => ReturnKeeps(s, i);
    case Crash(pid) => CrashKeeps(s, pid);
    case _ => TamperKeeps(s, e);
  }

  lemma {:induction false} RunKeeps(s: State, es: seq<Event>, t: State)
    requires Invariant(s) && Runs(s, es, t)
    ensures Invariant(t)
    decreases |es|
  {
    hide Invariant, Enabled, Next;
    if es != [] {
      StepKeeps(s, es[0]);
      RunKeeps(Next(s, es[0]), es[1..], t);
    }
  }
}
