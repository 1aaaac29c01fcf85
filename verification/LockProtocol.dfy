/** The per-vault operation lock as a state machine over any number of processes and threads.

    One activation of the lock context manager is an invocation. Identifiers grow with time, so the
    invocations of one thread form a stack whose top is the largest identifier, and the identifier
    also names the one open file description the activation may create. */
module LockProtocol {
  import opened Wrappers
  import opened LockTable

  datatype Thread = Thread(pid: nat, tid: nat)

  /** An entry of one process's lock table. */
  datatype Slot = Slot(pid: nat, key: string)

  /** A held re-entrant thread lock. */
  datatype Hold = Hold(owner: Thread, count: nat)

  /** The open file description that owns a kernel file lock, and its process. */
  datatype Holder = Holder(inv: nat, pid: nat)

  datatype Pc =
    | Acquiring | Opening | Checking | Initialising | Locking | Validating
    | Critical
    | Unlocking | Closing | Releasing | Returning

  /** `holds` records whether this activation's own acquire succeeded; the program keeps no such variable. */
  datatype Inv = Inv(thread: Thread, key: string, lock: LockId, pc: Pc, holds: bool, fd: Option<nat>, locked: bool)

  type Invs = map<nat, Inv>

  datatype State = State(
    invs: Invs,
    nextInv: nat,
    table: map<Slot, Entry>,
    nextLock: nat,
    held: map<LockId, Hold>,
    names: map<string, nat>,
    sizes: map<nat, nat>,
    flock: map<nat, Holder>)

  /** One step of the code of an activation, between its borrow and its return. */
  datatype Action =
    | Acquire
    | TimeOut
    | Open(ino: nat)
    | Check
    | Initialise
    | TryLock
    | Validate
    | Fail
    | Leave
    | Unlock(ok: bool)
    | Close(ok: bool)
    | Release

  datatype Event =
    | Enter(thread: Thread, key: string)
    | Step(i: nat, action: Action)
    | Return(i: nat)
    | Crash(pid: nat)
    | Replace(key: string, ino: nat, size: nat)
    | Unlink(key: string)

  const Initial := State(map[], 0, map[], 0, map[], map[], map[], map[])

  function SlotOf(v: Inv): Slot {
    Slot(v.thread.pid, v.key)
  }

  /** `i` is the innermost activation of its thread, the only one whose code is running. */
  ghost predicate TopOf(invs: Invs, i: nat) {
    i in invs && forall j | j in invs && invs[j].thread == invs[i].thread :: j <= i
  }

  /** The lock path still names the file the activation has open. */
  predicate Named(v: Inv, names: map<string, nat>) {
    v.fd.Some? && v.key in names && names[v.key] == v.fd.value
  }

  /** This thread owns the thread lock. */
  predicate Owns(v: Inv, held: map<LockId, Hold>) {
    v.lock in held && held[v.lock].owner == v.thread
  }

  function WriteAt(size: nat, offset: nat, count: nat): nat {
    if size < offset + count then offset + count else size
  }

  /** Where the code of an activation stands, and what the world must look like, for it to take a step. */
  predicate Allowed(s: State, v: Inv, a: Action) {
    match a
    case Acquire => v.pc.Acquiring? && (v.lock !in s.held || Owns(v, s.held))
    case TimeOut => v.pc.Acquiring? && v.lock in s.held && !Owns(v, s.held)
    case Open(ino) => v.pc.Opening? && (if v.key in s.names then ino == s.names[v.key] else ino !in s.sizes)
    case Check => v.pc.Checking? && Named(v, s.names) && v.fd.value in s.sizes && s.sizes[v.fd.value] <= 1
    case Initialise => v.pc.Initialising? && v.fd.Some? && v.fd.value in s.sizes
    case TryLock => v.pc.Locking? && v.fd.Some? && v.fd.value !in s.flock
    case Validate => v.pc.Validating? && Named(v, s.names)
    case Fail => v.pc.Opening? || v.pc.Checking? || v.pc.Initialising? || v.pc.Locking? || v.pc.Validating?
    case Leave => v.pc.Critical?
    case Unlock(ok) => v.pc.Unlocking?
    case Close(ok) => v.pc.Closing?
    case Release => v.pc.Releasing?
  }

  function Moved(s: State, v: Inv, a: Action): Inv {
    match a
    case Acquire => v.(pc := Opening, holds := true)
    case TimeOut => v.(pc := Unlocking)
    case Open(ino) => v.(pc := Checking, fd := Some(ino))
    case Check => v.(pc := if v.fd.Some? && v.fd.value in s.sizes && s.sizes[v.fd.value] == 0 then Initialising else Locking)
    case Initialise => v.(pc := Locking)
    case TryLock => v.(pc := Validating, locked := true)
    case Validate => v.(pc := Critical)
    case Fail => v.(pc := Unlocking)
    case Leave => v.(pc := Unlocking)
    case Unlock(ok) => v.(pc := Closing)
    case Close(ok) => v.(pc := Releasing)
    case Release => v.(pc := Returning, holds := false)
  }

  /** A thread lock is re-entrant; releasing one that this thread does not own is a swallowed error. */
  function HeldAfter(held: map<LockId, Hold>, v: Inv, a: Action): map<LockId, Hold> {
    match a
    case Acquire => held[v.lock := Hold(v.thread, (if v.lock in held then held[v.lock].count else 0) + 1)]
    case Release =>
      if !Owns(v, held) then held
      else if held[v.lock].count <= 1 then held - {v.lock}
      else held[v.lock := Hold(v.thread, held[v.lock].count - 1)]
    case _ => held
  }

  function NamesAfter(names: map<string, nat>, v: Inv, a: Action): map<string, nat> {
    if a.Open? then names[v.key := a.ino] else names
  }

  function SizesAfter(sizes: map<nat, nat>, v: Inv, a: Action): map<nat, nat> {
    if a.Open? && a.ino !in sizes then sizes[a.ino := 0]
    else if a.Initialise? && v.fd.Some? && v.fd.value in sizes
    then sizes[v.fd.value := WriteAt(sizes[v.fd.value], 0, 1)]
    else sizes
  }

  /** An unlock may fail; a close drops whatever lock the description still owned, unless it fails too. */
  function FlockAfter(flock: map<nat, Holder>, i: nat, v: Inv, a: Action): map<nat, Holder> {
    if v.fd.None? then flock
    else if a.TryLock? then flock[v.fd.value := Holder(i, v.thread.pid)]
    else if a.Unlock? && v.locked && a.ok then flock - {v.fd.value}
    else if a.Close? && a.ok && v.fd.value in flock && flock[v.fd.value].inv == i then flock - {v.fd.value}
    else flock
  }

  ghost predicate Enabled(s: State, e: Event) {
    match e
    case Enter(thread, key) => forall j | j in s.invs && s.invs[j].thread == thread :: s.invs[j].pc.Critical?
    case Step(i, a) => TopOf(s.invs, i) && Allowed(s, s.invs[i], a)
    case Return(i) => TopOf(s.invs, i) && s.invs[i].pc.Returning?
    case Replace(key, ino, size) => ino in s.sizes ==> s.sizes[ino] == size
    case _ => true
  }

  function EnterStep(s: State, thread: Thread, key: string): State {
    var slot := Slot(thread.pid, key);
    var table := Borrowed(s.table, slot, s.nextLock);
    s.(invs := s.invs[s.nextInv := Inv(thread, key, table[slot].lock, Acquiring, false, None, false)],
       nextInv := s.nextInv + 1,
       table := table,
       nextLock := if slot in s.table then s.nextLock else s.nextLock + 1)
  }

  function ActionStep(s: State, i: nat, a: Action): State
    requires i in s.invs
  {
    var v := s.invs[i];
    State(s.invs[i := Moved(s, v, a)], s.nextInv, s.table, s.nextLock, HeldAfter(s.held, v, a),
          NamesAfter(s.names, v, a), SizesAfter(s.sizes, v, a), FlockAfter(s.flock, i, v, a))
  }

  function ReturnStep(s: State, i: nat): State
    requires i in s.invs
  {
    s.(invs := s.invs - {i}, table := Returned(s.table, SlotOf(s.invs[i]), s.invs[i].lock))
  }

  function CrashStep(s: State, pid: nat): State {
    s.(invs := map i | i in s.invs && s.invs[i].thread.pid != pid :: s.invs[i],
       table := map slot | slot in s.table && slot.pid != pid :: s.table[slot],
       held := map l | l in s.held && s.held[l].owner.pid != pid :: s.held[l],
       flock := map ino | ino in s.flock && s.flock[ino].pid != pid :: s.flock[ino])
  }

  ghost function Next(s: State, e: Event): State
    requires Enabled(s, e)
  {
    match e
    case Enter(thread, key) => EnterStep(s, thread, key)
    case Step(i, a) => ActionStep(s, i, a)
    case Return(i) => ReturnStep(s, i)
    case Crash(pid) => CrashStep(s, pid)
    case Replace(key, ino, size) => s.(names := s.names[key := ino], sizes := s.sizes[ino := size])
    case Unlink(key) => s.(names := s.names - {key})
  }

  /** `t` is reached from `s` by the events `es`, in order. */
  ghost predicate Runs(s: State, es: seq<Event>, t: State)
    decreases |es|
  {
    if es == [] then s == t
    else Enabled(s, es[0]) && Runs(Next(s, es[0]), es[1..], t)
  }
}
