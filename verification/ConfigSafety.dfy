/** No configuration edit is ever lost: over every interleaving of writers, every failed or interrupted
    system call and every crash, the files are the logged edits applied in order. */
module ConfigSafety {
  import opened Wrappers
  import opened LockTable
  import opened LockProtocol
  import opened LockInvariant
  import opened LockSafety
  import opened ConfigStore
  import Publish

  // ---------------------------------------------------------------------------------------------
  // The invariant
  // ---------------------------------------------------------------------------------------------

  ghost predicate Sole(lock: State) {
    forall i, j | i in lock.invs && j in lock.invs && lock.invs[i].pc.Critical? && lock.invs[j].pc.Critical?
                  && lock.invs[i].key == lock.invs[j].key :: i == j
  }

  /** Every open transaction runs inside the guarded body of its own vault's lock. */
  ghost predicate Seated<E>(invs: Invs, txns: map<nat, Txn<E>>) {
    forall i | i in txns :: i in invs && invs[i].pc.Critical? && txns[i].req.path.root == invs[i].key
  }

  /** What a transaction has checked still holds, and what it has done is still there. */
  predicate Sound<E>(policy: Policy<E>, files: Files, x: Txn<E>) {
    var current := Content(files, x.req.path);
    var mainHolds := policy.mainHolds(x.req.edit, Content(files, MainPath(x.req.path)));
    match x.stage
    case Begun => !x.took
    case MainChecked => !x.took && mainHolds
    case Doubtful =>
      && policy.candidate(x.req.edit, x.existing) == Some(x.candidate)
      && (if x.took then current == Some(x.candidate) else mainHolds && current == x.existing)
    case Published => current == Some(x.candidate)
    case Refused => true
    case Unknown => true
    case _ =>
      !x.took && mainHolds && current == x.existing && policy.candidate(x.req.edit, x.existing) == Some(x.candidate)
  }

  ghost predicate AllSound<E>(policy: Policy<E>, files: Files, txns: map<nat, Txn<E>>) {
    forall i | i in txns :: Sound(policy, files, txns[i])
  }

  function Writers<E>(log: seq<Commit<E>>): set<nat> {
    set k | 0 <= k < |log| :: log[k].writer
  }

  ghost predicate OnceEach<E>(log: seq<Commit<E>>) {
    forall a, b | 0 <= a < b < |log| :: log[a].writer != log[b].writer
  }

  /** Where a transaction must, and must not, be on record. */
  predicate Tallied<E>(x: Txn<E>, recorded: bool) {
    match x.stage
    case Published => recorded
    case Doubtful => recorded == x.took
    case Unknown => true
    case _ => !recorded
  }

  ghost predicate Ledger<E>(invs: Invs, nextInv: nat, txns: map<nat, Txn<E>>, reports: map<nat, Report>, log: seq<Commit<E>>) {
    && OnceEach(log)
    && (forall i | i in txns :: i !in reports && Tallied(txns[i], i in Writers(log)))
    && (forall i | i in reports :: i < nextInv
          && (reports[i] == Committed ==> i in Writers(log)) && (reports[i] == NotCommitted ==> i !in Writers(log)))
    && (forall i | i in Writers(log) :: i < nextInv && (i in invs ==> i in txns || i in reports))
  }

  /** Success is reported only once the temporary file is gone. */
  ghost predicate Tidy(reports: map<nat, Report>, temps: set<nat>) {
    forall i | i in reports && reports[i] == Committed :: i !in temps
  }

  ghost predicate Consistent<E>(policy: Policy<E>, init: Files, s: Store<E>) {
    && Invariant(s.lock) && Anchored(s.lock.invs, s.lock.names)
    && Seated(s.lock.invs, s.txns)
    && AllSound(policy, s.files, s.txns)
    && Ledger(s.lock.invs, s.lock.nextInv, s.txns, s.reports, s.log)
    && Tidy(s.reports, s.temps)
    && Replay(policy, init, s.log) == Some(s.files)
  }

  // ---------------------------------------------------------------------------------------------
  // Lock steps
  // ---------------------------------------------------------------------------------------------

  lemma ExclusiveBodies(lock: State)
    requires Invariant(lock) && Anchored(lock.invs, lock.names)
    ensures Sole(lock)
  {
    forall i, j | i in lock.invs && j in lock.invs && lock.invs[i].pc.Critical? && lock.invs[j].pc.Critical?
                  && lock.invs[i].key == lock.invs[j].key
      ensures i == j
    {
      Standing(lock, i);
      Standing(lock, j);
      assert Named(lock.invs[i], lock.names) && Named(lock.invs[j], lock.names);
    }
  }

  /** A body that is not being left stays where it is. */
  lemma BodiesStay(lock: State, e: Event)
    requires Enabled(lock, e) && Bounded(lock)
    ensures forall i | i in lock.invs && lock.invs[i].pc.Critical? && i in Next(lock, e).invs
                       && !(e.Step? && e.i == i && e.action.Leave?) ::
              Next(lock, e).invs[i] == lock.invs[i]
    ensures lock.nextInv <= Next(lock, e).nextInv
    ensures forall i | i in Next(lock, e).invs :: i in lock.invs || i == lock.nextInv
  {
  }

  lemma LockActKeepsSeated<E>(lock: State, e: Event, txns: map<nat, Txn<E>>)
    requires Seated(lock.invs, txns) && Enabled(lock, e) && (e.Step? && e.action.Leave? ==> e.i !in txns)
    requires Bounded(lock)
    ensures Seated(Next(lock, e).invs, Remaining(txns, Next(lock, e).invs))
  {
    hide Enabled, Next, Bounded;
    BodiesStay(lock, e);
  }

  lemma LockActKeepsLedger<E>(invs: Invs, nextInv: nat, invs': Invs, nextInv': nat, txns: map<nat, Txn<E>>,
                              reports: map<nat, Report>, log: seq<Commit<E>>)
    requires Ledger(invs, nextInv, txns, reports, log) && nextInv <= nextInv'
    requires forall i | i in invs' :: i in invs || i == nextInv
    ensures Ledger(invs', nextInv', Remaining(txns, invs'), reports, log)
  {
    hide OnceEach;
  }

  lemma SubsetSound<E>(policy: Policy<E>, files: Files, txns: map<nat, Txn<E>>, invs: Invs)
    requires AllSound(policy, files, txns)
    ensures AllSound(policy, files, Remaining(txns, invs))
  {
    hide Sound;
  }

  lemma LockActKeeps<E>(policy: Policy<E>, init: Files, s: Store<E>, e: Event)
    requires Consistent(policy, init, s) && Able(s, LockAct(e))
    ensures Consistent(policy, init, Do(policy, s, LockAct(e)))
  {
    hide Bounded, Shared, Counted, Owned, Stacked, Phased, Excluded, Foreign, OneByte;
    hide Anchored, Seated, AllSound, Ledger, Tidy, Replay, Next, Enabled, Remaining;
    var lock := Next(s.lock, e);
    StepKeeps(s.lock, e);
    StepKeepsAnchored(s.lock, e);
    BodiesStay(s.lock, e);
    LockActKeepsSeated(s.lock, e, s.txns);
    SubsetSound(policy, s.files, s.txns, lock.invs);
    LockActKeepsLedger(s.lock.invs, s.lock.nextInv, lock.invs, lock.nextInv, s.txns, s.reports, s.log);
  }

  // ---------------------------------------------------------------------------------------------
  // Transaction steps
  // ---------------------------------------------------------------------------------------------

  lemma TurnKeepsOwnSound<E>(policy: Policy<E>, files: Files, x: Txn<E>, m: Move)
    requires Sound(policy, files, x) && Due(x.stage, m)
    ensures Sound(policy, FilesAfter(files, x, m), Turned(policy, files, x, m))
  {
  }

  /** A writer disturbs no writer of another vault. */
  lemma TurnKeepsOtherSound<E>(policy: Policy<E>, files: Files, x: Txn<E>, m: Move, y: Txn<E>)
    requires Sound(policy, files, y) && x.req.path.root != y.req.path.root
    ensures Sound(policy, FilesAfter(files, x, m), y)
  {
    assert Content(FilesAfter(files, x, m), y.req.path) == Content(files, y.req.path);
    assert Content(FilesAfter(files, x, m), MainPath(y.req.path)) == Content(files, MainPath(y.req.path));
  }

  lemma TurnKeepsSound<E>(policy: Policy<E>, lock: State, files: Files, txns: map<nat, Txn<E>>, i: nat, m: Move)
    requires AllSound(policy, files, txns) && Seated(lock.invs, txns) && Sole(lock)
    requires i in txns && Due(txns[i].stage, m)
    ensures AllSound(policy, FilesAfter(files, txns[i], m), txns[i := Turned(policy, files, txns[i], m)])
  {
    hide Sound, FilesAfter, Turned, Due;
    TurnKeepsOwnSound(policy, files, txns[i], m);
    forall j | j in txns && j != i
      ensures Sound(policy, FilesAfter(files, txns[i], m), txns[j])
    {
      TurnKeepsOtherSound(policy, files, txns[i], m, txns[j]);
    }
  }

  lemma TurnKeepsSeated<E>(invs: Invs, txns: map<nat, Txn<E>>, i: nat, y: Txn<E>)
    requires Seated(invs, txns) && i in txns && y.req == txns[i].req
    ensures Seated(invs, txns[i := y])
  {
  }

  lemma WritersOneMore<E>(log: seq<Commit<E>>, c: Commit<E>)
    ensures Writers(log + [c]) == Writers(log) + {c.writer}
  {
    forall w | w in Writers(log) + {c.writer}
      ensures w in Writers(log + [c])
    {
      if w in Writers(log) {
        var k :| 0 <= k < |log| && log[k].writer == w;
        assert (log + [c])[k].writer == w;
      } else {
        assert (log + [c])[|log|].writer == w;
      }
    }
  }

  lemma OnceEachOneMore<E>(log: seq<Commit<E>>, c: Commit<E>)
    requires OnceEach(log) && c.writer !in Writers(log)
    ensures OnceEach(log + [c])
  {
    forall k | 0 <= k < |log|
      ensures log[k].writer in Writers(log)
    {
    }
  }

  lemma TurnKeepsTally<E>(policy: Policy<E>, files: Files, x: Txn<E>, m: Move, recorded: bool)
    requires Due(x.stage, m) && Sound(policy, files, x) && Tallied(x, recorded)
    ensures Tallied(Turned(policy, files, x, m), recorded || Records(files, x, m))
    ensures Records(files, x, m) ==> !recorded
  {
  }

  lemma TurnKeepsLedger<E>(policy: Policy<E>, s: Store<E>, i: nat, m: Move)
    requires Ledger(s.lock.invs, s.lock.nextInv, s.txns, s.reports, s.log)
    requires i in s.txns && i < s.lock.nextInv && Due(s.txns[i].stage, m) && Sound(policy, s.files, s.txns[i])
    ensures Ledger(s.lock.invs, s.lock.nextInv, s.txns[i := Turned(policy, s.files, s.txns[i], m)], s.reports,
                   if Records(s.files, s.txns[i], m) then s.log + [Commit(i, s.txns[i].req)] else s.log)
  {
    hide OnceEach, Turned, Due, Sound, Records, Tallied, Writers;
    TurnKeepsTally(policy, s.files, s.txns[i], m, i in Writers(s.log));
    if Records(s.files, s.txns[i], m) {
      var c := Commit(i, s.txns[i].req);
      WritersOneMore(s.log, c);
      OnceEachOneMore(s.log, c);
    }
  }

  lemma ReplayOneMore<E>(policy: Policy<E>, init: Files, log: seq<Commit<E>>, files: Files, c: Commit<E>)
    requires Replay(policy, init, log) == Some(files)
    ensures Replay(policy, init, log + [c]) == Apply(policy, files, c.req)
  {
    assert (log + [c])[..|log + [c]| - 1] == log;
  }

  /** Going on record is exactly applying the edit to the files as they are. */
  lemma RecordingApplies<E>(policy: Policy<E>, files: Files, x: Txn<E>, m: Move)
    requires Due(x.stage, m) && Sound(policy, files, x) && Records(files, x, m)
    ensures Apply(policy, files, x.req) == Some(FilesAfter(files, x, m))
  {
    if m.ReadBack? {
      assert files[x.req.path := x.candidate] == files;
    }
  }

  lemma TurnKeepsReplay<E>(policy: Policy<E>, init: Files, s: Store<E>, i: nat, m: Move)
    requires Replay(policy, init, s.log) == Some(s.files)
    requires i in s.txns && Due(s.txns[i].stage, m) && Sound(policy, s.files, s.txns[i])
    ensures Replay(policy, init, if Records(s.files, s.txns[i], m) then s.log + [Commit(i, s.txns[i].req)] else s.log)
            == Some(FilesAfter(s.files, s.txns[i], m))
  {
    hide Replay, Apply, Sound, Due;
    if Records(s.files, s.txns[i], m) {
      ReplayOneMore(policy, init, s.log, s.files, Commit(i, s.txns[i].req));
      RecordingApplies(policy, s.files, s.txns[i], m);
    }
  }

  lemma TurnKeepsTidy<E>(s: Store<E>, i: nat, m: Move)
    requires Tidy(s.reports, s.temps) && i !in s.reports
    ensures Tidy(s.reports, TempsAfter(s.temps, i, m))
  {
  }

  /** What the invariant says of one open transaction. */
  lemma OpenTransaction<E>(policy: Policy<E>, init: Files, s: Store<E>, i: nat)
    requires Consistent(policy, init, s) && i in s.txns
    ensures i in s.lock.invs && i < s.lock.nextInv && i !in s.reports
    ensures Sound(policy, s.files, s.txns[i]) && Tallied(s.txns[i], i in Writers(s.log))
  {
    hide Shared, Counted, Owned, Stacked, Phased, Excluded, Foreign, OneByte, Sound, Replay, Writers, OnceEach;
  }

  lemma TurnKeeps<E>(policy: Policy<E>, init: Files, s: Store<E>, i: nat, m: Move)
    requires Consistent(policy, init, s) && Able(s, Turn(i, m))
    ensures Consistent(policy, init, Do(policy, s, Turn(i, m)))
  {
    hide Invariant, Anchored, Seated, AllSound, Ledger, Tidy, Replay, TempsAfter, FilesAfter, Due, Sound;
    OpenTransaction(policy, init, s, i);
    ExclusiveBodies(s.lock);
    TurnKeepsSeated(s.lock.invs, s.txns, i, Turned(policy, s.files, s.txns[i], m));
    TurnKeepsSound(policy, s.lock, s.files, s.txns, i, m);
    TurnKeepsLedger(policy, s, i, m);
    TurnKeepsReplay(policy, init, s, i, m);
    TurnKeepsTidy(s, i, m);
  }

  lemma BeginKeeps<E>(policy: Policy<E>, init: Files, s: Store<E>, i: nat, req: Request<E>)
    requires Consistent(policy, init, s) && Able(s, Begin(i, req))
    ensures Consistent(policy, init, Do(policy, s, Begin(i, req)))
  {
    hide Invariant, Anchored, Tidy, Replay, Writers, OnceEach;
  }

  lemma FinishKeepsLedger<E>(s: Store<E>, i: nat, leftover: bool)
    requires Ledger(s.lock.invs, s.lock.nextInv, s.txns, s.reports, s.log)
    requires i in s.txns && i < s.lock.nextInv && Decided(s.txns[i].stage)
    ensures Ledger(s.lock.invs, s.lock.nextInv, s.txns - {i}, s.reports[i := Told(s.txns[i], leftover)], s.log)
  {
    hide OnceEach, Writers;
  }

  lemma FinishKeeps<E>(policy: Policy<E>, init: Files, s: Store<E>, i: nat, removed: bool)
    requires Consistent(policy, init, s) && Able(s, Finish(i, removed))
    ensures Consistent(policy, init, Do(policy, s, Finish(i, removed)))
  {
    hide Invariant, Anchored, Ledger, Replay, Writers, OnceEach, Sound, Tallied;
    OpenTransaction(policy, init, s, i);
    FinishKeepsLedger(s, i, i in s.temps && !removed);
  }

  lemma ActKeeps<E>(policy: Policy<E>, init: Files, s: Store<E>, a: Act<E>)
    requires Consistent(policy, init, s) && Able(s, a)
    ensures Consistent(policy, init, Do(policy, s, a))
  {
    hide Consistent, Able, Do;
    match a
    case LockAct(e) => LockActKeeps(policy, init, s, e);
    case Begin(i, req) => BeginKeeps(policy, init, s, i, req);
    case Turn(i, m) => TurnKeeps(policy, init, s, i, m);
    case Finish(i, removed) => FinishKeeps(policy, init, s, i, removed);
  }

  lemma {:induction false} RunStaysConsistent<E>(policy: Policy<E>, init: Files, s: Store<E>, acts: seq<Act<E>>, t: Store<E>)
    requires Consistent(policy, init, s) && Reaches(policy, s, acts, t)
    ensures Consistent(policy, init, t)
    decreases |acts|
  {
    hide Consistent, Able, Do;
    if acts != [] {
      ActKeeps(policy, init, s, acts[0]);
      RunStaysConsistent(policy, init, Do(policy, s, acts[0]), acts[1..], t);
    }
  }

  // ---------------------------------------------------------------------------------------------
  // What this means over whole runs
  // ---------------------------------------------------------------------------------------------

  lemma ReachableIsConsistent<E>(policy: Policy<E>, init: Files, acts: seq<Act<E>>, s: Store<E>)
    requires Reaches(policy, Fresh(init), acts, s)
    ensures Consistent(policy, init, s)
  {
    assert Consistent(policy, init, Fresh(init)) by {
      assert Invariant(Initial);
    }
    hide Consistent;
    RunStaysConsistent(policy, init, Fresh(init), acts, s);
  }

  /** In every reachable state the files are exactly the recorded edits applied one after the other to the
      initial files, no edit is recorded twice, and what a caller was told agrees with the record:
      success means the edit is there (and its temporary file gone), a clean refusal means it is not. */
  lemma NoLostUpdate<E>(policy: Policy<E>, init: Files, acts: seq<Act<E>>, s: Store<E>)
    requires Reaches(policy, Fresh(init), acts, s)
    ensures Replay(policy, init, s.log) == Some(s.files)
    ensures OnceEach(s.log)
    ensures forall i | i in s.reports && s.reports[i] == Committed :: i in Writers(s.log) && i !in s.temps
    ensures forall i | i in s.reports && s.reports[i] == NotCommitted :: i !in Writers(s.log)
  {
    hide Invariant, Anchored, Seated, AllSound, Replay, OnceEach;
    ReachableIsConsistent(policy, init, acts, s);
  }

  lemma {:induction false} ReplayPrefix<E>(policy: Policy<E>, init: Files, log: seq<Commit<E>>, k: nat)
    requires Replay(policy, init, log).Some? && k <= |log|
    ensures Replay(policy, init, log[..k]).Some?
    decreases |log|
  {
    if k == |log| {
      assert log[..k] == log;
    } else {
      ReplayPrefix(policy, init, log[..|log| - 1], k);
      assert log[..|log| - 1][..k] == log[..k];
    }
  }

  /** At the moment an edit went on record, the main configuration still held what its writer expected,
      and the target became the candidate computed from what the target held at that very moment. */
  lemma CommitsMeetTheirExpectations<E>(policy: Policy<E>, init: Files, acts: seq<Act<E>>, s: Store<E>, k: nat)
    returns (before: Files, after: Files)
    requires Reaches(policy, Fresh(init), acts, s) && k < |s.log|
    ensures Replay(policy, init, s.log[..k]) == Some(before) && Replay(policy, init, s.log[..k + 1]) == Some(after)
    ensures var req := s.log[k].req;
            && policy.mainHolds(req.edit, Content(before, MainPath(req.path)))
            && req.path in after
            && policy.candidate(req.edit, Content(before, req.path)) == Some(after[req.path])
            && after - {req.path} == before - {req.path}
  {
    NoLostUpdate(policy, init, acts, s);
    ReplayPrefix(policy, init, s.log, k);
    ReplayPrefix(policy, init, s.log, k + 1);
    before := Replay(policy, init, s.log[..k]).value;
    after := Replay(policy, init, s.log[..k + 1]).value;
    assert s.log[..k + 1][..k] == s.log[..k];
  }

  lemma {:induction false} ReplayKeeps<E>(policy: Policy<E>, good: string -> bool, init: Files, log: seq<Commit<E>>, path: Path)
    requires forall e, x :: policy.candidate(e, x).Some? ==> good(policy.candidate(e, x).value)
    requires Replay(policy, init, log).Some?
    requires path in init ==> good(init[path])
    ensures path in Replay(policy, init, log).value ==> good(Replay(policy, init, log).value[path])
    decreases |log|
  {
    if log != [] {
      ReplayKeeps(policy, good, init, log[..|log| - 1], path);
    }
  }

  /** A target that starts absent or good is absent or good in every reachable state, whatever fails or crashes. */
  lemma TargetsStayGood<E>(policy: Policy<E>, good: string -> bool, init: Files, acts: seq<Act<E>>, s: Store<E>, path: Path)
    requires forall e, x :: policy.candidate(e, x).Some? ==> good(policy.candidate(e, x).value)
    requires Reaches(policy, Fresh(init), acts, s)
    requires path in init ==> good(init[path])
    ensures path in s.files ==> good(s.files[path])
  {
    NoLostUpdate(policy, init, acts, s);
    ReplayKeeps(policy, good, init, s.log, path);
  }
}
