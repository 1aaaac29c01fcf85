/** Any number of configuration writers, each running its read, edit, re-read and replace transaction
    inside the vault's operation lock, as steps of one system. */
module ConfigStore {
  import opened Wrappers
  import opened LockProtocol
  import Publish

  const CONFIG_NAME := ".ai-dememory.toml"

  /** A file below a vault; the vault root also identifies the vault's configuration lock. */
  datatype Path = Path(root: string, name: string)

  type Files = map<Path, string>

  /** What a writer wants, seen through two tests: does the main configuration still hold what it expects
      there, and what complete text, if any, does its edit make of the target's current content? */
  datatype Policy<!E> = Policy(
    mainHolds: (E, Option<string>) -> bool,
    candidate: (E, Option<string>) -> Option<string>)

  datatype Request<E> = Request(path: Path, edit: E)

  datatype Stage = Begun | MainChecked | Edited | Staged | Confirmed | Doubtful | Published | Refused | Unknown

  /** `took` records whether the swap really happened, which the program can only find out by reading back. */
  datatype Txn<E> = Txn(req: Request<E>, stage: Stage, existing: Option<string>, candidate: string, took: bool)

  /** What the caller is told: success, an error with nothing written, or an error that leaves it open. */
  datatype Report = Committed | NotCommitted | Unclear

  datatype Commit<E> = Commit(writer: nat, req: Request<E>)

  datatype Store<E> = Store(
    lock: State,
    files: Files,
    temps: set<nat>,
    txns: map<nat, Txn<E>>,
    reports: map<nat, Report>,
    log: seq<Commit<E>>)

  /** One step of a transaction between its beginning and its end. */
  datatype Move =
    | CheckMain
    | Read
    | GiveUp
    | WriteTemp
    | Confirm
    | Swap(swap: Publish.Swap)
    | ReadBack
    | LoseTrack

  datatype Act<E> =
    | LockAct(e: Event)
    | Begin(i: nat, req: Request<E>)
    | Turn(i: nat, move: Move)
    | Finish(i: nat, removed: bool)

  function Content(files: Files, path: Path): Option<string> {
    if path in files then Some(files[path]) else None
  }

  function MainPath(path: Path): Path {
    Path(path.root, CONFIG_NAME)
  }

  /** The code of activation `i` is running inside its guarded body. */
  ghost predicate InBody(lock: State, i: nat) {
    TopOf(lock.invs, i) && lock.invs[i].pc.Critical?
  }

  predicate Undecided(stage: Stage) {
    stage == Begun || stage == MainChecked || stage == Edited || stage == Staged
  }

  predicate Decided(stage: Stage) {
    stage == Published || stage == Refused || stage == Unknown
  }

  predicate Due(stage: Stage, m: Move) {
    match m
    case CheckMain => stage == Begun
    case Read => stage == MainChecked
    case GiveUp => Undecided(stage)
    case WriteTemp => stage == Edited
    case Confirm => stage == Staged
    case Swap(_) => stage == Confirmed
    case ReadBack => stage == Doubtful
    case LoseTrack => stage == Doubtful
  }

  ghost predicate Able<E>(s: Store<E>, a: Act<E>) {
    match a
    case LockAct(e) =>
      && Enabled(s.lock, e) && !e.Replace? && !e.Unlink?
      && (e.Step? && e.action.Leave? ==> e.i !in s.txns)
    case Begin(i, req) =>
      InBody(s.lock, i) && i !in s.txns && i !in s.reports && req.path.root == s.lock.invs[i].key
    case Turn(i, m) => i in s.txns && InBody(s.lock, i) && Due(s.txns[i].stage, m)
    case Finish(i, removed) => i in s.txns && InBody(s.lock, i) && Decided(s.txns[i].stage)
  }

  /** The transaction of one writer after its own step. */
  function Turned<E>(policy: Policy<E>, files: Files, x: Txn<E>, m: Move): Txn<E> {
    match m
    case CheckMain =>
      x.(stage := if policy.mainHolds(x.req.edit, Content(files, MainPath(x.req.path))) then MainChecked else Refused)
    case Read =>
      var existing := Content(files, x.req.path);
      (match policy.candidate(x.req.edit, existing)
       case None => x.(stage := Refused)
       case Some(text) => x.(stage := Edited, existing := existing, candidate := text))
    case GiveUp => x.(stage := Refused)
    case WriteTemp => x.(stage := Staged)
    case Confirm => x.(stage := if Content(files, x.req.path) == x.existing then Confirmed else Refused)
    case Swap(swap) => x.(stage := if swap.Done? then Published else Doubtful, took := !swap.RaisesBefore?)
    case ReadBack =>
      x.(stage := match Publish.Classify(Content(files, x.req.path), x.candidate, x.existing)
                  case Replaced => Published
                  case Untouched => Refused
                  case Foreign => Unknown)
    case LoseTrack => x.(stage := Unknown)
  }

  predicate TakesEffect(m: Move) {
    m.Swap? && !m.swap.RaisesBefore?
  }

  function FilesAfter<E>(files: Files, x: Txn<E>, m: Move): Files {
    if TakesEffect(m) then files[x.req.path := x.candidate] else files
  }

  function TempsAfter(temps: set<nat>, i: nat, m: Move): set<nat> {
    if m.WriteTemp? then temps + {i} else if TakesEffect(m) then temps - {i} else temps
  }

  /** This step puts the writer's edit on record: the swap takes effect, or it did not but the target
      already reads as the candidate. */
  predicate Records<E>(files: Files, x: Txn<E>, m: Move) {
    || TakesEffect(m)
    || (m.ReadBack? && !x.took && Publish.Classify(Content(files, x.req.path), x.candidate, x.existing) == Publish.Replaced)
  }

  function Told<E>(x: Txn<E>, leftover: bool): Report {
    if x.stage == Published && !leftover then Committed
    else if x.stage == Refused then NotCommitted
    else Unclear
  }

  /** The transactions whose activation is still alive; the others died with their process. */
  function Remaining<E>(txns: map<nat, Txn<E>>, invs: Invs): map<nat, Txn<E>> {
    map i | i in txns && i in invs :: txns[i]
  }

  ghost function Do<E>(policy: Policy<E>, s: Store<E>, a: Act<E>): Store<E>
    requires Able(s, a)
  {
    match a
    case LockAct(e) =>
      var lock := Next(s.lock, e);
      s.(lock := lock, txns := Remaining(s.txns, lock.invs))
    case Begin(i, req) => s.(txns := s.txns[i := Txn(req, Begun, None, "", false)])
    case Turn(i, m) =>
      var x := s.txns[i];
      Store(s.lock, FilesAfter(s.files, x, m), TempsAfter(s.temps, i, m), s.txns[i := Turned(policy, s.files, x, m)],
            s.reports, if Records(s.files, x, m) then s.log + [Commit(i, x.req)] else s.log)
    case Finish(i, removed) =>
      s.(txns := s.txns - {i},
         temps := if removed then s.temps - {i} else s.temps,
         reports := s.reports[i := Told(s.txns[i], i in s.temps && !removed)])
  }

  ghost predicate Reaches<E>(policy: Policy<E>, s: Store<E>, acts: seq<Act<E>>, t: Store<E>)
    decreases |acts|
  {
    if acts == [] then s == t
    else Able(s, acts[0]) && Reaches(policy, Do(policy, s, acts[0]), acts[1..], t)
  }

  function Fresh<E>(files: Files): Store<E> {
    Store(Initial, files, {}, map[], map[], [])
  }

  /** Apply one edit to the files: only if its expectation of the main configuration holds,
      and only if it yields a complete text. */
  function Apply<E>(policy: Policy<E>, files: Files, req: Request<E>): Option<Files> {
    if !policy.mainHolds(req.edit, Content(files, MainPath(req.path))) then None
    else match policy.candidate(req.edit, Content(files, req.path))
      case None => None
      case Some(text) => Some(files[req.path := text])
  }

  /** The files after applying the logged edits one after the other, nobody else interfering. */
  function Replay<E>(policy: Policy<E>, files: Files, log: seq<Commit<E>>): Option<Files> {
    if log == [] then Some(files)
    else match Replay(policy, files, log[..|log| - 1])
      case None => None
      case Some(before) => Apply(policy, before, log[|log| - 1].req)
  }
}
