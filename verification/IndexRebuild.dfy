/** The disposable index: built anew from the memories, with the generated logs carried over. */
module IndexRebuild {
  import opened Wrappers
  import opened MemoryCorpus

  // ---------------------------------------------------------------------------------------------
  // Log tables
  // ---------------------------------------------------------------------------------------------

  const MAX_RETRIEVAL_LOG_ROWS := 10000
  const MAX_OUTCOME_LOG_ROWS := 10000
  const MAX_CONSOLIDATION_LOG_ROWS := 5000
  const MAX_LIFECYCLE_ROWS := 10000
  const MAX_RETRIEVAL_QUERY_CHARS := 4096
  const MAX_LOG_IDENTIFIER_CHARS := 512
  const MAX_OUTCOME_NOTE_CHARS := 4096
  const MAX_CONSOLIDATION_DETAILS_CHARS := 8192

  /** The primary key of a log row: a number, or the memory's own id. */
  datatype Key = Number(n: int) | Name(s: string)

  /** A row: its key, the memory it is about, and the texts whose length is limited. */
  datatype Row = Row(key: Key, memory: Option<string>, texts: seq<Option<string>>)

  /** A table in the order of its primary key. */
  type Table = seq<Row>

  predicate Less(a: Key, b: Key) {
    match (a, b)
    case (Number(m), Number(n)) => m < n
    case (Name(s), Name(t)) => TextLess(s, t)
    case (Number(_), Name(_)) => true
    case _ => false
  }

  ghost predicate Ordered(t: Table) {
    forall a, b | 0 <= a < b < |t| :: Less(t[a].key, t[b].key)
  }

  function TextSize(text: Option<string>): nat {
    match text
    case None => 0
    case Some(s) => |s|
  }

  /** The memory id and every limited text within its limit; an absent text counts as empty. */
  predicate WellSized(row: Row, limits: seq<nat>) {
    && TextSize(row.memory) <= MAX_LOG_IDENTIFIER_CHARS
    && |row.texts| == |limits| && forall k | 0 <= k < |limits| :: TextSize(row.texts[k]) <= limits[k]
  }

  function Select(t: Table, limits: seq<nat>): Table {
    if t == [] then []
    else Select(t[..|t| - 1], limits) + if WellSized(t[|t| - 1], limits) then [t[|t| - 1]] else []
  }

  predicate IsCurrent(row: Row, ids: set<string>) {
    row.memory == None || row.memory.value in ids
  }

  function Current(t: Table, ids: set<string>): Table {
    if t == [] then []
    else Current(t[..|t| - 1], ids) + if IsCurrent(t[|t| - 1], ids) then [t[|t| - 1]] else []
  }

  function Newest(t: Table, max: nat): Table {
    if |t| <= max then t else t[|t| - max..]
  }

  function Descending(t: Table): Table {
    if t == [] then [] else [t[|t| - 1]] + Descending(t[..|t| - 1])
  }

  /** The rows that a rebuild keeps of a log about memories. */
  function Kept(t: Table, ids: set<string>, max: nat, limits: seq<nat>): Table {
    Current(Newest(Select(t, limits), max), ids)
  }

  lemma {:induction false} DescendingAt(t: Table)
    ensures |Descending(t)| == |t| && forall k | 0 <= k < |t| :: Descending(t)[k] == t[|t| - 1 - k]
    decreases |t|
  {
    if t != [] {
      DescendingAt(t[..|t| - 1]);
    }
  }

  /** The rows that a rebuild reads of a log; none if its table is missing or cannot be read. */
  function ReadFrom(table: Option<Table>, raises: bool, max: nat, limits: seq<nat>): Table {
    if table.None? || raises then [] else Newest(Select(table.value, limits), max)
  }

  /** `ORDER BY key DESC LIMIT max`, then reversed; a statement that raises, as for a missing table, gives no rows. */
  method ReadRows(table: Option<Table>, raises: bool, max: nat, limits: seq<nat>) returns (rows: Table)
    ensures rows == ReadFrom(table, raises, max, limits)
  {
    if table.None? || raises {
      return [];
    }
    var selected := Select(table.value, limits);
    var cursor := Descending(selected);
    if |cursor| > max {
      cursor := cursor[..max];
    }
    rows := Descending(cursor);
    DescendingAt(selected);
    DescendingAt(cursor);
  }

  method FilteredRows(table: Option<Table>, raises: bool, ids: set<string>, max: nat, limits: seq<nat>) returns (output: Table)
    ensures output == if table.None? || raises then [] else Kept(table.value, ids, max, limits)
  {
    hide IsCurrent, Newest, Select;
    var rows := ReadRows(table, raises, max, limits);
    output := [];
    for k := 0 to |rows|
      invariant output == Current(rows[..k], ids)
    {
      assert rows[..k + 1][..k] == rows[..k];
      if IsCurrent(rows[k], ids) {
        output := output + [rows[k]];
      }
    }
    assert rows[..|rows|] == rows;
  }

  /** `INSERT OR IGNORE` into a table kept in key order. */
  function Insert(t: Table, row: Row): Table
    decreases |t|
  {
    if t == [] then [row]
    else
      var last := t[|t| - 1];
      if last.key == row.key then t
      else if Less(last.key, row.key) then t + [row]
      else Insert(t[..|t| - 1], row) + [last]
  }

  method InsertRows(table: Table, rows: Table) returns (result: Table)
    requires Ordered(rows) && table == []
    ensures result == rows
  {
    result := table;
    for k := 0 to |rows|
      invariant result == rows[..k]
    {
      result := Insert(result, rows[k]);
      assert k > 0 ==> Less(rows[k - 1].key, rows[k].key);
      LessIrreflexive(rows[k].key);
      assert rows[..k + 1] == rows[..k] + [rows[k]];
    }
    assert rows[..|rows|] == rows;
  }

  lemma {:induction false} TextLessIrreflexive(s: string)
    ensures !TextLess(s, s)
    decreases |s|
  {
    if s != "" {
      TextLessIrreflexive(s[1..]);
    }
  }

  lemma LessIrreflexive(k: Key)
    ensures !Less(k, k)
  {
    if k.Name? {
      TextLessIrreflexive(k.s);
    }
  }

  // ---------------------------------------------------------------------------------------------
  // The index
  // ---------------------------------------------------------------------------------------------

  datatype IndexRow = IndexRow(id: string, path: string, hash: string)

  /** The generated tables; in an old index any of them may be missing. */
  datatype Logs = Logs(retrieval: Option<Table>, lifecycle: Option<Table>, outcomes: Option<Table>, consolidation: Option<Table>)

  datatype Db = Db(memories: seq<IndexRow>, logs: Logs)

  const RETRIEVAL_LIMITS: seq<nat> := [MAX_RETRIEVAL_QUERY_CHARS, MAX_LOG_IDENTIFIER_CHARS]
  const LIFECYCLE_LIMITS: seq<nat> := []
  const OUTCOME_LIMITS: seq<nat> := [MAX_OUTCOME_NOTE_CHARS]
  const CONSOLIDATION_LIMITS: seq<nat> := [MAX_LOG_IDENTIFIER_CHARS, MAX_CONSOLIDATION_DETAILS_CHARS]

  ghost predicate OrderedLogs(logs: Logs) {
    && (logs.retrieval.Some? ==> Ordered(logs.retrieval.value)) && (logs.lifecycle.Some? ==> Ordered(logs.lifecycle.value))
    && (logs.outcomes.Some? ==> Ordered(logs.outcomes.value)) && (logs.consolidation.Some? ==> Ordered(logs.consolidation.value))
  }

  datatype Log = RetrievalLog | LifecycleLog | OutcomeLog | ConsolidationLog

  function TableOf(logs: Logs, log: Log): Option<Table> {
    match log
    case RetrievalLog => logs.retrieval
    case LifecycleLog => logs.lifecycle
    case OutcomeLog => logs.outcomes
    case ConsolidationLog => logs.consolidation
  }

  /** What is kept of a log whose table can be read: of those about memories the rows of current ones, of the
      consolidation log all, and of each only the newest that are well sized. */
  function KeptOf(log: Log, t: Table, ids: set<string>): Table {
    match log
    case RetrievalLog => Kept(t, ids, MAX_RETRIEVAL_LOG_ROWS, RETRIEVAL_LIMITS)
    case LifecycleLog => Kept(t, ids, MAX_LIFECYCLE_ROWS, LIFECYCLE_LIMITS)
    case OutcomeLog => Kept(t, ids, MAX_OUTCOME_LOG_ROWS, OUTCOME_LIMITS)
    case ConsolidationLog => Newest(Select(t, CONSOLIDATION_LIMITS), MAX_CONSOLIDATION_LOG_ROWS)
  }

  /** The log is there and can be read. */
  predicate CanRead(prior: Option<Db>, fails: Step -> bool, log: Log) {
    prior.Some? && TableOf(prior.value.logs, log).Some? && !fails(ReadLog(log))
  }

  function CarriedLog(prior: Option<Db>, ids: set<string>, fails: Step -> bool, log: Log): Table {
    if CanRead(prior, fails, log) then KeptOf(log, TableOf(prior.value.logs, log).value, ids) else []
  }

  /** The logs that a rebuild carries over. */
  function Carried(prior: Option<Db>, ids: set<string>, fails: Step -> bool): Logs {
    Logs(Some(CarriedLog(prior, ids, fails, RetrievalLog)), Some(CarriedLog(prior, ids, fails, LifecycleLog)),
         Some(CarriedLog(prior, ids, fails, OutcomeLog)), Some(CarriedLog(prior, ids, fails, ConsolidationLog)))
  }

  /** Discovery, the secret scan and validation all succeed. */
  predicate Buildable(tools: Tools, c: Corpus) {
    && |c.order| <= MAX_MEMORY_FILES
    && (forall p | p in c.files :: !c.files[p].flagged && c.files[p].document.Some? && tools.valid(c.files[p].document.value))
    && (forall p, q | p in c.files && q in c.files && c.files[p].document.value.front.id == c.files[q].document.value.front.id :: p == q)
  }

  function Ids(c: Corpus): set<string> {
    set p | p in c.files && c.files[p].document.Some? :: c.files[p].document.value.front.id
  }

  /** One row for every document that may be indexed, in discovery order. */
  function Indexed(tools: Tools, c: Corpus, paths: seq<string>): seq<IndexRow>
    requires forall p | p in paths :: p in c.files && c.files[p].document.Some?
  {
    if paths == [] then []
    else
      var path := paths[|paths| - 1];
      var d := c.files[path].document.value;
      Indexed(tools, c, paths[..|paths| - 1])
      + if d.front.sensitivity == SECRET then [] else [IndexRow(d.front.id, path, tools.hash(d))]
  }

  ghost function Rebuilt(tools: Tools, c: Corpus, prior: Option<Db>, fails: Step -> bool): Db
    requires Discovered(c) && Buildable(tools, c)
  {
    Db(Indexed(tools, c, c.order), Carried(prior, Ids(c), fails))
  }

  /** The places where the outside world can raise an error in a rebuild. Errors of reading and of pruning a log are
      swallowed. */
  datatype Step =
    | Dump | ReadLog(log: Log) | MakeDirectory | ClearTemporary | Connect | Schema | InsertDocument(k: nat) | Restore
    | PruneLog(log: Log) | Commit | CleanUp | Close | RemoveOld | Replace | Sidecars

  datatype Failure = NotBuildable | Failed(step: Step)

  /** The steps of a rebuild of `n` documents whose errors make it fail: what is removed or cleared must be there, the
      clean-up belongs to a failure, and the errors of two kinds of statements are swallowed. */
  predicate Planned(step: Step, prior: bool, leftover: bool, n: nat) {
    match step
    case ClearTemporary => leftover
    case InsertDocument(k) => k < n
    case RemoveOld => prior
    case CleanUp | ReadLog(_) | PruneLog(_) => false
    case _ => true
  }

  /** Their order. */
  function Rank(step: Step, n: nat): nat {
    match step
    case Dump => 0
    case MakeDirectory => 1
    case ClearTemporary => 2
    case Connect => 3
    case Schema => 4
    case InsertDocument(k) => 5 + k
    case Restore => 5 + n
    case Commit => 6 + n
    case Close => 7 + n
    case RemoveOld => 8 + n
    case Replace => 9 + n
    case Sidecars => 10 + n
    case _ => 11 + n
  }

  /** The steps inside the `try`, after whose failure the temporary file is cleaned up. */
  predicate InTry(step: Step) {
    step.Schema? || step.InsertDocument? || step.Restore? || step.Commit?
  }

  /** The step is taken and fails, and no step before it does. */
  ghost predicate FirstToFail(fails: Step -> bool, step: Step, prior: bool, leftover: bool, n: nat) {
    && Planned(step, prior, leftover, n) && fails(step)
    && forall other | Planned(other, prior, leftover, n) && Rank(other, n) < Rank(step, n) :: !fails(other)
  }

  ghost predicate NoneFails(fails: Step -> bool, prior: bool, leftover: bool, n: nat) {
    forall step | Planned(step, prior, leftover, n) :: !fails(step)
  }

  lemma FirstIsUnique(fails: Step -> bool, a: Step, b: Step, prior: bool, leftover: bool, n: nat)
    requires FirstToFail(fails, a, prior, leftover, n) && FirstToFail(fails, b, prior, leftover, n)
    ensures a == b
  {
    assert Rank(a, n) == Rank(b, n);
  }

  /** Either no step fails, or one is the first to. */
  lemma {:induction false} SomeFirst(fails: Step -> bool, step: Step, prior: bool, leftover: bool, n: nat)
    requires Planned(step, prior, leftover, n) && fails(step)
    ensures exists first :: FirstToFail(fails, first, prior, leftover, n)
    decreases Rank(step, n)
  {
    if !FirstToFail(fails, step, prior, leftover, n) {
      hide Planned, Rank;
      var other :| Planned(other, prior, leftover, n) && Rank(other, n) < Rank(step, n) && fails(other);
      SomeFirst(fails, other, prior, leftover, n);
    }
  }

  /** When only the final replacement fails, it is the first to. */
  lemma ReplaceCanFail(prior: bool, leftover: bool, n: nat)
    ensures FirstToFail(step => step == Replace, Replace, prior, leftover, n)
  {
  }

  /** The steps whose errors make a rebuild fail, in their order; and what must not have failed for the replacement to be
      the first of them. */
  lemma StepsExactly(fails: Step -> bool, prior: bool, leftover: bool, n: nat)
    ensures NoneFails(fails, prior, leftover, n) <==>
              && !fails(Dump) && !fails(MakeDirectory) && (leftover ==> !fails(ClearTemporary)) && !fails(Connect) && !fails(Schema)
              && (forall k | 0 <= k < n :: !fails(InsertDocument(k)))
              && !fails(Restore) && !fails(Commit) && !fails(Close) && (prior ==> !fails(RemoveOld)) && !fails(Replace)
              && !fails(Sidecars)
    ensures FirstToFail(fails, Replace, prior, leftover, n) <==>
              && !fails(Dump) && !fails(MakeDirectory) && (leftover ==> !fails(ClearTemporary)) && !fails(Connect) && !fails(Schema)
              && (forall k | 0 <= k < n :: !fails(InsertDocument(k)))
              && !fails(Restore) && !fails(Commit) && !fails(Close) && (prior ==> !fails(RemoveOld)) && fails(Replace)
  {
  }

  /** What keeps memories from being indexed: too many files, one that cannot be loaded or is not valid or objected to, or
      two of one identifier. */
  lemma NotBuildableExactly(tools: Tools, c: Corpus)
    ensures !Buildable(tools, c) <==>
              || |c.order| > 10000
              || (exists p :: p in c.files && (c.files[p].flagged || c.files[p].document.None?))
              || (exists p :: p in c.files && c.files[p].document.Some? && !tools.valid(c.files[p].document.value))
              || (exists p, q :: p in c.files && q in c.files && p != q && c.files[p].document.Some? && c.files[q].document.Some?
                                 && c.files[p].document.value.front.id == c.files[q].document.value.front.id)
  {
  }

  ghost predicate BuildFails(fails: Step -> bool, step: Step, n: nat) {
    && InTry(step) && Planned(step, false, false, n) && fails(step)
    && forall other | InTry(other) && Planned(other, false, false, n) && Rank(other, n) < Rank(step, n) :: !fails(other)
  }

  ghost predicate BuildsThrough(fails: Step -> bool, n: nat) {
    forall step | InTry(step) && Planned(step, false, false, n) :: !fails(step)
  }

  ghost predicate InsertsUpTo(fails: Step -> bool, k: nat) {
    forall i | 0 <= i < k :: !fails(InsertDocument(i))
  }

  /** The steps inside the `try` before this one did not fail. */
  ghost predicate TryPassed(fails: Step -> bool, step: Step, n: nat) {
    && (step.InsertDocument? ==> !fails(Schema) && InsertsUpTo(fails, step.k))
    && (step.Restore? || step.Commit? ==> !fails(Schema) && InsertsUpTo(fails, n))
    && (step.Commit? ==> !fails(Restore))
  }

  lemma DocumentsLoad(tools: Tools, c: Corpus)
    requires Discovered(c) && Buildable(tools, c)
    ensures forall p | p in c.order :: p in c.files && c.files[p].document.Some?
  {
  }

  lemma TryStops(fails: Step -> bool, step: Step, n: nat)
    requires InTry(step) && Planned(step, false, false, n) && fails(step) && TryPassed(fails, step, n)
    ensures BuildFails(fails, step, n)
  {
  }

  lemma TryPasses(fails: Step -> bool, n: nat)
    requires TryPassed(fails, Commit, n) && !fails(Commit)
    ensures BuildsThrough(fails, n)
  {
  }

  /** The steps behind the documents. */
  method Finish(fails: Step -> bool, n: nat) returns (failed: Option<Step>)
    requires !fails(Schema) && InsertsUpTo(fails, n)
    ensures failed.None? ==> BuildsThrough(fails, n)
    ensures failed.Some? ==> BuildFails(fails, failed.value, n)
  {
    hide BuildFails, BuildsThrough;
    if fails(Restore) {
      TryStops(fails, Restore, n);
      return Some(Restore);
    }
    if fails(Commit) {
      TryStops(fails, Commit, n);
      return Some(Commit);
    }
    TryPasses(fails, n);
    return None;
  }

  const EMPTY := Db([], Logs(Some([]), Some([]), Some([]), Some([])))

  class IndexStore {
    const tools: Tools
    var db: Option<Db>
    var temporary: Option<Db>

    method DumpGeneratedState(ids: set<string>, fails: Step -> bool) returns (logs: Logs)
      ensures logs == Carried(db, ids, fails)
    {
      if db.None? {
        return Logs(Some([]), Some([]), Some([]), Some([]));
      }
      hide Kept;
      var prior := db.value.logs;
      var retrieval := FilteredRows(prior.retrieval, fails(ReadLog(RetrievalLog)), ids, MAX_RETRIEVAL_LOG_ROWS, RETRIEVAL_LIMITS);
      var lifecycle := FilteredRows(prior.lifecycle, fails(ReadLog(LifecycleLog)), ids, MAX_LIFECYCLE_ROWS, LIFECYCLE_LIMITS);
      var outcomes := FilteredRows(prior.outcomes, fails(ReadLog(OutcomeLog)), ids, MAX_OUTCOME_LOG_ROWS, OUTCOME_LIMITS);
      var consolidation := ReadRows(prior.consolidation, fails(ReadLog(ConsolidationLog)), MAX_CONSOLIDATION_LOG_ROWS,
                                    CONSOLIDATION_LIMITS);
      logs := Logs(Some(retrieval), Some(lifecycle), Some(outcomes), Some(consolidation));
    }

    /** Into fresh tables every carried row is inserted as it is; pruning to the same limits then removes nothing, so
        that it does not matter which of its statements raise. */
    method RestoreAndPrune(state: Logs, fails: Step -> bool, ghost prior: Option<Db>, ghost ids: set<string>) returns (logs: Logs)
      requires state == Carried(prior, ids, fails) && (prior.Some? ==> OrderedLogs(prior.value.logs))
      ensures logs == state
    {
      CarriedOrdered(prior, ids, fails);
      CarriedSmall(prior, ids, fails);
      hide Carried;
      var retrieval := InsertRows([], state.retrieval.value);
      var consolidation := InsertRows([], state.consolidation.value);
      var lifecycle := InsertRows([], state.lifecycle.value);
      var outcomes := InsertRows([], state.outcomes.value);
      if !fails(PruneLog(RetrievalLog)) {
        retrieval := Newest(retrieval, MAX_RETRIEVAL_LOG_ROWS);
      }
      if !fails(PruneLog(OutcomeLog)) {
        outcomes := Newest(outcomes, MAX_OUTCOME_LOG_ROWS);
      }
      if !fails(PruneLog(ConsolidationLog)) {
        consolidation := Newest(consolidation, MAX_CONSOLIDATION_LOG_ROWS);
      }
      logs := Logs(Some(retrieval), Some(lifecycle), Some(outcomes), Some(consolidation));
    }

    /** The part inside the `try`: everything happens in the temporary file. */
    method BuildTemporary(c: Corpus, state: Logs, fails: Step -> bool, ghost prior: Option<Db>) returns (failed: Option<Step>)
      requires Discovered(c) && Buildable(tools, c)
      requires state == Carried(prior, Ids(c), fails) && (prior.Some? ==> OrderedLogs(prior.value.logs))
      modifies this`temporary
      ensures failed.None? ==> temporary == Some(Rebuilt(tools, c, prior, fails)) && BuildsThrough(fails, |c.order|)
      ensures failed.Some? ==> BuildFails(fails, failed.value, |c.order|)
    {
      hide Carried, OrderedLogs, BuildFails, BuildsThrough, Buildable, Indexed, Discovered, InsertsUpTo;
      temporary := Some(EMPTY);
      if fails(Schema) {
        TryStops(fails, Schema, |c.order|);
        return Some(Schema);
      }
      DocumentsLoad(tools, c);
      var memories;
      memories, failed := InsertDocuments(c, fails);
      if failed.Some? {
        return;
      }
      failed := Finish(fails, |c.order|);
      if failed.Some? {
        return;
      }
      var logs := RestoreAndPrune(state, fails, prior, Ids(c));
      temporary := Some(Db(memories, logs));
    }

    /** The loop over the documents; one that is secret has no row. */
    method InsertDocuments(c: Corpus, fails: Step -> bool) returns (memories: seq<IndexRow>, failed: Option<Step>)
      requires !fails(Schema) && forall p | p in c.order :: p in c.files && c.files[p].document.Some?
      ensures failed.None? ==> memories == Indexed(tools, c, c.order) && InsertsUpTo(fails, |c.order|)
      ensures failed.Some? ==> BuildFails(fails, failed.value, |c.order|)
    {
      hide BuildFails;
      memories, failed := [], None;
      for k := 0 to |c.order|
        invariant memories == Indexed(tools, c, c.order[..k]) && failed.None?
        invariant InsertsUpTo(fails, k)
      {
        if fails(InsertDocument(k)) {
          TryStops(fails, InsertDocument(k), |c.order|);
          failed := Some(InsertDocument(k));
          return;
        }
        var d := c.files[c.order[k]].document.value;
        assert c.order[..k + 1][..k] == c.order[..k];
        if d.front.sensitivity != SECRET {
          memories := memories + [IndexRow(d.front.id, c.order[k], tools.hash(d))];
        }
      }
      assert c.order[..|c.order|] == c.order;
    }

    /** Success means that no step fails whose errors are not swallowed, and any failure returns the first such step, or
        the clean-up behind it. On success the index is the rebuilt one, with the logs that could be read. On failure
        the old index is untouched, unless it is the very last steps that fail: after the old file is removed it is gone
        and the complete new one still waits in the temporary file; and a failure to clean up afterwards leaves the new
        index in place. */
    method RebuildIndex(c: Corpus, fails: Step -> bool) returns (r: Result<nat, Failure>)
      requires Discovered(c) && (db.Some? ==> OrderedLogs(db.value.logs))
      modifies this
      ensures r == Err(NotBuildable) <==> !Buildable(tools, c)
      ensures r.Ok? <==> Buildable(tools, c) && NoneFails(fails, old(db).Some?, old(temporary).Some?, |c.order|)
      ensures Buildable(tools, c) ==>
                forall step | FirstToFail(fails, step, old(db).Some?, old(temporary).Some?, |c.order|) ::
                  r == Err(Failed(if InTry(step) && fails(CleanUp) then CleanUp else step))
      ensures r.Ok? ==> db == Some(Rebuilt(tools, c, old(db), fails)) && temporary == None && r.value == |c.order|
      ensures r == Err(Failed(Replace)) ==> Buildable(tools, c) && db == None && temporary == Some(Rebuilt(tools, c, old(db), fails))
      ensures r == Err(Failed(Sidecars)) ==> Buildable(tools, c) && db == Some(Rebuilt(tools, c, old(db), fails)) && temporary == None
      ensures r.Err? && r.error != Failed(Replace) && r.error != Failed(Sidecars) ==> db == old(db)
      ensures r == Err(Failed(Replace)) <==>
                Buildable(tools, c) && FirstToFail(fails, Replace, old(db).Some?, old(temporary).Some?, |c.order|)
      ensures old(db).Some? && db.None? <==>
                old(db).Some? && Buildable(tools, c) && FirstToFail(fails, Replace, true, old(temporary).Some?, |c.order|)
    {
      hide Rebuilt, Buildable, Carried, FirstToFail, NoneFails, Discovered, OrderedLogs, PassedBefore, BuildFails, BuildsThrough, Rank;
      ghost var prior, leftover, n := db.Some?, temporary.Some?, |c.order|;
      if !Buildable(tools, c) {
        return Err(NotBuildable);
      }
      if fails(Dump) {
        PassesStart(fails, prior, leftover, n);
        FailsFirst(fails, Dump, prior, leftover, n);
        return Err(Failed(Dump));
      }
      var state := DumpGeneratedState(Ids(c), fails);
      var failed := Prepare(fails, n);
      if failed.Some? {
        return Err(Failed(failed.value));
      }
      failed := BuildTemporary(c, state, fails, db);
      if failed.Some? {
        FailsInTry(fails, failed.value, prior, leftover, n);
        if fails(CleanUp) {
          return Err(Failed(CleanUp));
        }
        temporary := None;
        return Err(Failed(failed.value));
      }
      PassesTry(fails, prior, leftover, n);
      failed := Install(fails, leftover, n);
      if failed.Some? {
        return Err(Failed(failed.value));
      }
      return Ok(|c.order|);
    }

    /** Making room for the temporary file. */
    method Prepare(fails: Step -> bool, ghost n: nat) returns (failed: Option<Step>)
      requires !fails(Dump)
      modifies this`temporary
      ensures failed.Some? ==>
                failed.value in {MakeDirectory, ClearTemporary, Connect} && OnlyFirst(fails, failed.value, db.Some?, old(temporary).Some?, n)
      ensures failed.None? ==> !fails(MakeDirectory) && !fails(Connect) && (old(temporary).Some? ==> !fails(ClearTemporary))
    {
      hide OnlyFirst;
      ghost var prior, leftover := db.Some?, temporary.Some?;
      if fails(MakeDirectory) {
        FailsFirst(fails, MakeDirectory, prior, leftover, n);
        return Some(MakeDirectory);
      }
      if temporary.Some? {
        if fails(ClearTemporary) {
          FailsFirst(fails, ClearTemporary, prior, leftover, n);
          return Some(ClearTemporary);
        }
        temporary := None;
      }
      if fails(Connect) {
        FailsFirst(fails, Connect, prior, leftover, n);
        return Some(Connect);
      }
      return None;
    }

    /** Putting the complete temporary file in the place of the index. */
    method Install(fails: Step -> bool, ghost leftover: bool, ghost n: nat) returns (failed: Option<Step>)
      requires temporary.Some? && PassedBefore(fails, Close, db.Some?, leftover, n)
      modifies this
      ensures failed.None? ==> NoneFails(fails, old(db).Some?, leftover, n) && db == old(temporary) && temporary == None
      ensures failed.Some? ==>
                failed.value in {Close, RemoveOld, Replace, Sidecars} && OnlyFirst(fails, failed.value, old(db).Some?, leftover, n)
      ensures failed == Some(Close) || failed == Some(RemoveOld) ==> db == old(db)
      ensures failed == Some(Replace) ==> db == None && temporary == old(temporary)
      ensures failed == Some(Sidecars) ==> db == old(temporary) && temporary == None
      ensures failed.None? ==> forall step :: !FirstToFail(fails, step, old(db).Some?, leftover, n)
    {
      hide OnlyFirst, NoneFails, FirstToFail;
      ghost var prior := db.Some?;
      if fails(Close) {
        FailsFirst(fails, Close, prior, leftover, n);
        return Some(Close);
      }
      if db.Some? {
        if fails(RemoveOld) {
          FailsFirst(fails, RemoveOld, prior, leftover, n);
          return Some(RemoveOld);
        }
        db := None;
      }
      if fails(Replace) {
        FailsFirst(fails, Replace, prior, leftover, n);
        return Some(Replace);
      }
      db, temporary := temporary, None;
      if fails(Sidecars) {
        FailsFirst(fails, Sidecars, prior, leftover, n);
        return Some(Sidecars);
      }
      NeverFails(fails, prior, leftover, n);
      return None;
    }
  }

  lemma PassesStart(fails: Step -> bool, prior: bool, leftover: bool, n: nat)
    ensures PassedBefore(fails, Dump, prior, leftover, n)
  {
  }

  lemma PassesTry(fails: Step -> bool, prior: bool, leftover: bool, n: nat)
    requires !fails(Dump) && !fails(MakeDirectory) && (leftover ==> !fails(ClearTemporary)) && !fails(Connect) && BuildsThrough(fails, n)
    ensures PassedBefore(fails, Close, prior, leftover, n)
  {
  }

  /** The steps before this one, outside the `try`, did not fail, nor did those in the `try` if it is behind them. */
  ghost predicate PassedBefore(fails: Step -> bool, step: Step, prior: bool, leftover: bool, n: nat) {
    && (Rank(step, n) > Rank(Dump, n) ==> !fails(Dump))
    && (Rank(step, n) > Rank(MakeDirectory, n) ==> !fails(MakeDirectory))
    && (Rank(step, n) > Rank(ClearTemporary, n) && leftover ==> !fails(ClearTemporary))
    && (Rank(step, n) > Rank(Connect, n) ==> !fails(Connect))
    && (Rank(step, n) > Rank(Commit, n) ==> BuildsThrough(fails, n))
    && (Rank(step, n) > Rank(Close, n) ==> !fails(Close))
    && (Rank(step, n) > Rank(RemoveOld, n) && prior ==> !fails(RemoveOld))
    && (Rank(step, n) > Rank(Replace, n) ==> !fails(Replace))
    && (Rank(step, n) > Rank(Sidecars, n) ==> !fails(Sidecars))
  }

  ghost predicate OnlyFirst(fails: Step -> bool, step: Step, prior: bool, leftover: bool, n: nat) {
    && FirstToFail(fails, step, prior, leftover, n)
    && !NoneFails(fails, prior, leftover, n)
    && forall other | FirstToFail(fails, other, prior, leftover, n) :: other == step
  }

  lemma FailsFirst(fails: Step -> bool, step: Step, prior: bool, leftover: bool, n: nat)
    requires Planned(step, prior, leftover, n) && !InTry(step) && fails(step) && PassedBefore(fails, step, prior, leftover, n)
    ensures OnlyFirst(fails, step, prior, leftover, n)
  {
    forall other | FirstToFail(fails, other, prior, leftover, n)
      ensures other == step
    {
      FirstIsUnique(fails, other, step, prior, leftover, n);
    }
  }

  lemma FailsInTry(fails: Step -> bool, step: Step, prior: bool, leftover: bool, n: nat)
    requires BuildFails(fails, step, n) && !fails(Dump) && !fails(MakeDirectory) && (leftover ==> !fails(ClearTemporary)) && !fails(Connect)
    ensures OnlyFirst(fails, step, prior, leftover, n) && InTry(step)
  {
    forall other | FirstToFail(fails, other, prior, leftover, n)
      ensures other == step
    {
      FirstIsUnique(fails, other, step, prior, leftover, n);
    }
  }

  lemma NeverFails(fails: Step -> bool, prior: bool, leftover: bool, n: nat)
    requires PassedBefore(fails, CleanUp, prior, leftover, n)
    ensures NoneFails(fails, prior, leftover, n) && forall step :: !FirstToFail(fails, step, prior, leftover, n)
  {
  }

  // ---------------------------------------------------------------------------------------------
  // What is carried
  // ---------------------------------------------------------------------------------------------

  lemma {:induction false} Selected(t: Table, limits: seq<nat>)
    ensures forall row :: row in Select(t, limits) <==> row in t && WellSized(row, limits)
    ensures Ordered(t) ==> Ordered(Select(t, limits))
    decreases |t|
  {
    hide WellSized, Less;
    if t != [] {
      var n := |t| - 1;
      Selected(t[..n], limits);
      assert forall row :: row in t <==> row in t[..n] || row == t[n];
      if Ordered(t) {
        assert forall a | 0 <= a < n :: t[..n][a] == t[a];
        LastOrdered(t, Select(t[..n], limits));
      }
    }
  }

  lemma {:induction false} Filtered(t: Table, ids: set<string>)
    ensures forall row :: row in Current(t, ids) <==> row in t && IsCurrent(row, ids)
    ensures Ordered(t) ==> Ordered(Current(t, ids))
    ensures |Current(t, ids)| <= |t|
    decreases |t|
  {
    hide IsCurrent, Less;
    if t != [] {
      var n := |t| - 1;
      Filtered(t[..n], ids);
      assert forall row :: row in t <==> row in t[..n] || row == t[n];
      if Ordered(t) {
        assert forall a | 0 <= a < n :: t[..n][a] == t[a];
        LastOrdered(t, Current(t[..n], ids));
      }
    }
  }

  /** A row behind all others stays behind any choice of them. */
  lemma LastOrdered(t: Table, chosen: Table)
    requires t != [] && Ordered(t) && Ordered(chosen) && forall row | row in chosen :: row in t[..|t| - 1]
    ensures Ordered(chosen + [t[|t| - 1]])
  {
    hide Less;
    var n := |t| - 1;
    forall a | 0 <= a < |chosen|
      ensures Less(chosen[a].key, t[n].key)
    {
      assert chosen[a] in chosen;
      var k :| 0 <= k < n && t[..n][k] == chosen[a];
      assert t[k] == chosen[a];
    }
  }

  lemma NewestOrdered(t: Table, max: nat)
    ensures Ordered(t) ==> Ordered(Newest(t, max))
  {
    hide Less;
    if |t| > max {
      var newest := t[|t| - max..];
      assert forall a | 0 <= a < |newest| :: newest[a] == t[|t| - max + a];
    }
  }

  lemma KeptOrdered(t: Table, ids: set<string>, max: nat, limits: seq<nat>)
    requires Ordered(t)
    ensures Ordered(Kept(t, ids, max, limits)) && |Kept(t, ids, max, limits)| <= max
  {
    Selected(t, limits);
    NewestOrdered(Select(t, limits), max);
    Filtered(Newest(Select(t, limits), max), ids);
  }

  lemma KeptOfOrdered(log: Log, t: Table, ids: set<string>)
    requires Ordered(t)
    ensures Ordered(KeptOf(log, t, ids))
  {
    hide Ordered;
    match log
    case RetrievalLog => KeptOrdered(t, ids, MAX_RETRIEVAL_LOG_ROWS, RETRIEVAL_LIMITS);
    case LifecycleLog => KeptOrdered(t, ids, MAX_LIFECYCLE_ROWS, LIFECYCLE_LIMITS);
    case OutcomeLog => KeptOrdered(t, ids, MAX_OUTCOME_LOG_ROWS, OUTCOME_LIMITS);
    case ConsolidationLog =>
      Selected(t, CONSOLIDATION_LIMITS);
      NewestOrdered(Select(t, CONSOLIDATION_LIMITS), MAX_CONSOLIDATION_LOG_ROWS);
  }

  lemma CarriedLogOrdered(prior: Option<Db>, ids: set<string>, fails: Step -> bool, log: Log)
    requires prior.Some? ==> OrderedLogs(prior.value.logs)
    ensures Ordered(CarriedLog(prior, ids, fails, log))
  {
    hide KeptOf;
    if CanRead(prior, fails, log) {
      hide Ordered;
      KeptOfOrdered(log, TableOf(prior.value.logs, log).value, ids);
    }
  }

  lemma CarriedOrdered(prior: Option<Db>, ids: set<string>, fails: Step -> bool)
    requires prior.Some? ==> OrderedLogs(prior.value.logs)
    ensures OrderedLogs(Carried(prior, ids, fails))
  {
    hide CarriedLog, Ordered;
    CarriedLogOrdered(prior, ids, fails, RetrievalLog);
    CarriedLogOrdered(prior, ids, fails, LifecycleLog);
    CarriedLogOrdered(prior, ids, fails, OutcomeLog);
    CarriedLogOrdered(prior, ids, fails, ConsolidationLog);
  }

  lemma CarriedSmall(prior: Option<Db>, ids: set<string>, fails: Step -> bool)
    ensures |CarriedLog(prior, ids, fails, RetrievalLog)| <= MAX_RETRIEVAL_LOG_ROWS
    ensures |CarriedLog(prior, ids, fails, LifecycleLog)| <= MAX_LIFECYCLE_ROWS
    ensures |CarriedLog(prior, ids, fails, OutcomeLog)| <= MAX_OUTCOME_LOG_ROWS
    ensures |CarriedLog(prior, ids, fails, ConsolidationLog)| <= MAX_CONSOLIDATION_LOG_ROWS
  {
    hide Kept, Select;
    if prior.Some? {
      var logs := prior.value.logs;
      if logs.retrieval.Some? { KeptSmall(logs.retrieval.value, ids, MAX_RETRIEVAL_LOG_ROWS, RETRIEVAL_LIMITS); }
      if logs.lifecycle.Some? { KeptSmall(logs.lifecycle.value, ids, MAX_LIFECYCLE_ROWS, LIFECYCLE_LIMITS); }
      if logs.outcomes.Some? { KeptSmall(logs.outcomes.value, ids, MAX_OUTCOME_LOG_ROWS, OUTCOME_LIMITS); }
    }
  }

  lemma KeptSmall(t: Table, ids: set<string>, max: nat, limits: seq<nat>)
    ensures |Kept(t, ids, max, limits)| <= max
  {
    Filtered(Newest(Select(t, limits), max), ids);
  }

  lemma {:induction false} SelectSplit(t: Table, i: nat, limits: seq<nat>)
    requires i <= |t|
    ensures Select(t, limits) == Select(t[..i], limits) + Select(t[i..], limits)
    decreases |t|
  {
    hide WellSized;
    if i == |t| {
      assert t[..i] == t && t[i..] == [];
    } else {
      var n := |t| - 1;
      SelectSplit(t[..n], i, limits);
      assert t[..n][..i] == t[..i] && t[..n][i..] == t[i..][..n - i] && t[i..][n - i] == t[n];
    }
  }

  lemma OrderedDistinct(t: Table, a: nat, b: nat)
    requires Ordered(t) && a < |t| && b < |t| && t[a] == t[b]
    ensures a == b
  {
    LessIrreflexive(t[a].key);
  }

  /** A well-sized row stands between the chosen rows before it and those behind it. */
  lemma SelectAround(t: Table, i: nat, limits: seq<nat>)
    requires i < |t| && WellSized(t[i], limits)
    ensures Select(t, limits) == Select(t[..i], limits) + [t[i]] + Select(t[i + 1..], limits)
  {
    hide WellSized;
    SelectSplit(t, i, limits);
    SelectSplit(t[i..], 1, limits);
    assert t[i..][..1] == [t[i]] && t[i..][1..] == t[i + 1..] && [t[i]][..0] == [];
  }

  lemma InNewest(chosen: Table, front: Table, row: Row, behind: Table, max: nat)
    requires Ordered(chosen) && chosen == front + [row] + behind
    ensures row in Newest(chosen, max) <==> |behind| < max
  {
    hide Less;
    var k := |front|;
    assert chosen[k] == row && |chosen| == k + 1 + |behind|;
    if |behind| < max {
      if |chosen| > max {
        assert Newest(chosen, max)[k - (|chosen| - max)] == row;
      }
    } else if row in Newest(chosen, max) {
      var j :| 0 <= j < max && Newest(chosen, max)[j] == row;
      assert chosen[|chosen| - max + j] == row;
      OrderedDistinct(chosen, k, |chosen| - max + j);
    }
  }

  /** What the newest well-sized rows are, row by row: well sized, with fewer than `max` well-sized rows behind. */
  lemma NewestExactly(t: Table, i: nat, max: nat, limits: seq<nat>)
    requires Ordered(t) && i < |t|
    ensures t[i] in Newest(Select(t, limits), max) <==> WellSized(t[i], limits) && |Select(t[i + 1..], limits)| < max
  {
    Selected(t, limits);
    hide WellSized, Select, Ordered;
    var chosen := Select(t, limits);
    if WellSized(t[i], limits) {
      SelectAround(t, i, limits);
      InNewest(chosen, Select(t[..i], limits), t[i], Select(t[i + 1..], limits), max);
    } else {
      assert forall row | row in Newest(chosen, max) :: row in chosen;
    }
  }

  /** The rebuilt log, row by row: an old row is carried over exactly if it is well sized, fewer than `max`
      well-sized rows come behind it, and its memory still exists or it names none. Keys and order are kept. */
  lemma CarriesExactly(t: Table, ids: set<string>, max: nat, limits: seq<nat>)
    requires Ordered(t)
    ensures Ordered(Kept(t, ids, max, limits))
    ensures forall row | row in Kept(t, ids, max, limits) :: row in t
    ensures forall i | 0 <= i < |t| ::
              t[i] in Kept(t, ids, max, limits) <==>
                IsCurrent(t[i], ids) && WellSized(t[i], limits) && |Select(t[i + 1..], limits)| < max
  {
    hide WellSized, IsCurrent, Less;
    KeptOrdered(t, ids, max, limits);
    Selected(t, limits);
    Filtered(Newest(Select(t, limits), max), ids);
    forall i | 0 <= i < |t|
      ensures t[i] in Newest(Select(t, limits), max) <==> WellSized(t[i], limits) && |Select(t[i + 1..], limits)| < max
    {
      NewestExactly(t, i, max, limits);
    }
  }

  lemma FrontRows(t: Table)
    requires t != []
    ensures var n := |t| - 1; t == t[..n] + [t[n]] && t[n] in t && forall row | row in t[..n] :: row in t
  {
  }

  lemma LastSelected(t: Table, limits: seq<nat>)
    requires t != [] && WellSized(t[|t| - 1], limits)
    ensures Select(t, limits) == Select(t[..|t| - 1], limits) + [t[|t| - 1]]
  {
    hide WellSized;
  }

  lemma LastKept(t: Table, ids: set<string>)
    requires t != [] && IsCurrent(t[|t| - 1], ids)
    ensures Current(t, ids) == Current(t[..|t| - 1], ids) + [t[|t| - 1]]
  {
    hide IsCurrent;
  }

  lemma {:induction false} SelectAll(t: Table, limits: seq<nat>)
    requires forall row | row in t :: WellSized(row, limits)
    ensures Select(t, limits) == t
    decreases |t|
  {
    hide WellSized;
    if t != [] {
      var n := |t| - 1;
      FrontRows(t);
      SelectAll(t[..n], limits);
      hide Select;
      LastSelected(t, limits);
    }
  }

  lemma {:induction false} FilterAll(t: Table, ids: set<string>)
    requires forall row | row in t :: IsCurrent(row, ids)
    ensures Current(t, ids) == t
    decreases |t|
  {
    hide IsCurrent;
    if t != [] {
      var n := |t| - 1;
      FrontRows(t);
      FilterAll(t[..n], ids);
      hide Current;
      LastKept(t, ids);
    }
  }

  lemma KeptTwice(t: Table, ids: set<string>, max: nat, limits: seq<nat>)
    ensures Kept(Kept(t, ids, max, limits), ids, max, limits) == Kept(t, ids, max, limits)
  {
    hide WellSized, IsCurrent;
    var kept := Kept(t, ids, max, limits);
    Selected(t, limits);
    Filtered(Newest(Select(t, limits), max), ids);
    SelectAll(kept, limits);
    FilterAll(kept, ids);
  }

  lemma NewestTwice(t: Table, max: nat, limits: seq<nat>)
    ensures var kept := Newest(Select(t, limits), max); Newest(Select(kept, limits), max) == kept
  {
    hide WellSized;
    Selected(t, limits);
    SelectAll(Newest(Select(t, limits), max), limits);
  }

  lemma KeptOfTwice(log: Log, t: Table, ids: set<string>)
    ensures KeptOf(log, KeptOf(log, t, ids), ids) == KeptOf(log, t, ids) && KeptOf(log, [], ids) == []
  {
    KeptOfNothing(ids);
    hide Kept, Select, Newest;
    match log
    case RetrievalLog => KeptTwice(t, ids, MAX_RETRIEVAL_LOG_ROWS, RETRIEVAL_LIMITS);
    case LifecycleLog => KeptTwice(t, ids, MAX_LIFECYCLE_ROWS, LIFECYCLE_LIMITS);
    case OutcomeLog => KeptTwice(t, ids, MAX_OUTCOME_LOG_ROWS, OUTCOME_LIMITS);
    case ConsolidationLog => NewestTwice(t, MAX_CONSOLIDATION_LOG_ROWS, CONSOLIDATION_LIMITS);
  }

  lemma KeptOfNothing(ids: set<string>)
    ensures forall max: nat, limits: seq<nat> :: Kept([], ids, max, limits) == []
    ensures forall max: nat, limits: seq<nat> :: Newest(Select([], limits), max) == []
  {
  }

  lemma CarriedLogIs(prior: Option<Db>, ids: set<string>, fails: Step -> bool, log: Log)
    ensures TableOf(Carried(prior, ids, fails), log) == Some(CarriedLog(prior, ids, fails, log))
  {
    hide CarriedLog;
  }

  lemma CarriedLogTwice(prior: Option<Db>, ids: set<string>, memories: seq<IndexRow>, fails: Step -> bool, again: Step -> bool, log: Log)
    ensures CarriedLog(Some(Db(memories, Carried(prior, ids, fails))), ids, again, log) ==
            if again(ReadLog(log)) then [] else CarriedLog(prior, ids, fails, log)
  {
    hide KeptOf, Carried;
    CarriedLogIs(prior, ids, fails, log);
    if CanRead(prior, fails, log) {
      KeptOfTwice(log, TableOf(prior.value.logs, log).value, ids);
    } else {
      KeptOfTwice(log, [], ids);
    }
  }

  /** Rebuilding again from the same memories changes nothing at all, if and only if every log that can then not be
      read is empty. */
  lemma SecondRebuildIsIdentity(tools: Tools, c: Corpus, prior: Option<Db>, fails: Step -> bool, again: Step -> bool)
    requires Discovered(c) && Buildable(tools, c)
    ensures var first := Rebuilt(tools, c, prior, fails);
            Rebuilt(tools, c, Some(first), again) == first <==>
              forall log | again(ReadLog(log)) :: TableOf(first.logs, log) == Some([])
  {
    hide Indexed, Ids, CarriedLog;
    var first := Rebuilt(tools, c, prior, fails);
    var second := Rebuilt(tools, c, Some(first), again);
    forall log
      ensures TableOf(second.logs, log) == if again(ReadLog(log)) then Some([]) else TableOf(first.logs, log)
    {
      CarriedLogTwice(prior, Ids(c), Indexed(tools, c, c.order), fails, again, log);
      CarriedLogIs(prior, Ids(c), fails, log);
      CarriedLogIs(Some(first), Ids(c), again, log);
    }
    SameLogs(first.logs, second.logs);
  }

  lemma SameLogs(a: Logs, b: Logs)
    ensures a == b <==> forall log :: TableOf(a, log) == TableOf(b, log)
  {
    if forall log :: TableOf(a, log) == TableOf(b, log) {
      assert TableOf(a, RetrievalLog) == TableOf(b, RetrievalLog) && TableOf(a, LifecycleLog) == TableOf(b, LifecycleLog);
      assert TableOf(a, OutcomeLog) == TableOf(b, OutcomeLog) && TableOf(a, ConsolidationLog) == TableOf(b, ConsolidationLog);
    }
  }

  /** A log of the rebuilt index holds what is to be kept of the old one if and only if the old one is there and can be
      read, or nothing is to be kept of it. */
  lemma LogIsCarriedExactly(tools: Tools, c: Corpus, prior: Db, fails: Step -> bool, log: Log)
    requires Discovered(c) && Buildable(tools, c) && TableOf(prior.logs, log).Some?
    ensures var kept := KeptOf(log, TableOf(prior.logs, log).value, Ids(c));
            TableOf(Rebuilt(tools, c, Some(prior), fails).logs, log) == Some(kept) <==> !fails(ReadLog(log)) || kept == []
  {
    hide KeptOf, Carried, Indexed;
    CarriedLogIs(Some(prior), Ids(c), fails, log);
  }

  /** When reading a log is all that fails, no step does that counts: the rebuild succeeds, and the log is dropped. */
  lemma UnreadableLogIsDropped(tools: Tools, c: Corpus, prior: Db, log: Log, leftover: bool)
    requires Discovered(c) && Buildable(tools, c)
    ensures NoneFails(step => step == ReadLog(log), true, leftover, |c.order|)
    ensures TableOf(Rebuilt(tools, c, Some(prior), step => step == ReadLog(log)).logs, log) == Some([])
  {
    hide KeptOf, Carried, Indexed;
    CarriedLogIs(Some(prior), Ids(c), step => step == ReadLog(log), log);
  }

  /** Nor does it matter which prunings raise: the index is the same as without, and lost all the same when the
      replacement fails. */
  lemma PruningNeverMatters(tools: Tools, c: Corpus, prior: Option<Db>, fails: Step -> bool, quiet: Step -> bool, leftover: bool)
    requires Discovered(c) && Buildable(tools, c) && forall step: Step | !step.PruneLog? :: fails(step) == quiet(step)
    ensures Rebuilt(tools, c, prior, fails) == Rebuilt(tools, c, prior, quiet)
    ensures NoneFails(fails, prior.Some?, leftover, |c.order|) <==> NoneFails(quiet, prior.Some?, leftover, |c.order|)
    ensures FirstToFail(fails, Replace, prior.Some?, leftover, |c.order|) <==> FirstToFail(quiet, Replace, prior.Some?, leftover, |c.order|)
  {
    hide KeptOf, Indexed;
    assert forall step | Planned(step, prior.Some?, leftover, |c.order|) :: fails(step) == quiet(step);
  }
}
