/** What a rebuild carries over, log by log: which rows, with which limits. */
module IndexLogs {
  import opened Wrappers
  import opened MemoryCorpus
  import opened IndexRebuild

  /** An absent text fits every limit. */
  predicate Short(text: Option<string>, size: nat) {
    text.Some? ==> |text.value| <= size
  }

  /** The query, and who used it. */
  predicate RetrievalFits(row: Row) {
    Short(row.memory, 512) && |row.texts| == 2 && Short(row.texts[0], 4096) && Short(row.texts[1], 512)
  }

  predicate LifecycleFits(row: Row) {
    Short(row.memory, 512) && row.texts == []
  }

  /** The note. */
  predicate OutcomeFits(row: Row) {
    Short(row.memory, 512) && |row.texts| == 1 && Short(row.texts[0], 4096)
  }

  /** The action and its details. */
  predicate ConsolidationFits(row: Row) {
    Short(row.memory, 512) && |row.texts| == 2 && Short(row.texts[0], 512) && Short(row.texts[1], 8192)
  }

  /** The row is about a memory that is there, or about none. */
  ghost predicate AboutCurrent(c: Corpus, row: Row) {
    row.memory.Some? ==>
      exists p :: p in c.files && c.files[p].document.Some? && c.files[p].document.value.front.id == row.memory.value
  }

  /** The rows behind this one that fit. */
  function FittingBehind(t: Table, i: nat, fits: Row -> bool): set<nat> {
    set j | i < j < |t| && fits(t[j])
  }

  /** Numbers grow, and names follow one another as texts. */
  ghost predicate Ascending(t: Table) {
    forall a, b | 0 <= a < b < |t| ::
      match (t[a].key, t[b].key)
      case (Number(m), Number(n)) => m < n
      case (Name(x), Name(y)) => TextLess(x, y)
      case _ => true
  }

  lemma OrderedAscends(t: Table)
    requires Ordered(t)
    ensures Ascending(t)
  {
    hide TextLess;
    forall a, b | 0 <= a < b < |t|
      ensures match (t[a].key, t[b].key)
              case (Number(m), Number(n)) => m < n
              case (Name(x), Name(y)) => TextLess(x, y)
              case _ => true
    {
      assert Less(t[a].key, t[b].key);
    }
  }

  /** The rows of `kept` are those of `t` that fit, with fewer than `max` fitting rows behind them, and that are wanted; each
      is as it was, and they are in the order of their keys. */
  ghost predicate Holds(t: Table, kept: Table, fits: Row -> bool, wanted: Row -> bool, max: nat) {
    && Ascending(kept) && (forall row | row in kept :: row in t)
    && forall i | 0 <= i < |t| :: t[i] in kept <==> fits(t[i]) && wanted(t[i]) && |FittingBehind(t, i, fits)| < max
  }

  lemma FitsExactly(row: Row)
    ensures WellSized(row, RETRIEVAL_LIMITS) <==> RetrievalFits(row)
    ensures WellSized(row, LIFECYCLE_LIMITS) <==> LifecycleFits(row)
    ensures WellSized(row, OUTCOME_LIMITS) <==> OutcomeFits(row)
    ensures WellSized(row, CONSOLIDATION_LIMITS) <==> ConsolidationFits(row)
  {
  }

  lemma CurrentExactly(c: Corpus, row: Row)
    ensures IsCurrent(row, Ids(c)) <==> AboutCurrent(c, row)
  {
  }

  lemma {:induction false} SelectCounts(t: Table, i: nat, limits: seq<nat>, fits: Row -> bool)
    requires i < |t| && forall row :: fits(row) == WellSized(row, limits)
    ensures |Select(t[i + 1..], limits)| == |FittingBehind(t, i, fits)|
    decreases |t|
  {
    hide WellSized;
    var n := |t| - 1;
    if i == n {
      assert FittingBehind(t, i, fits) == {};
    } else {
      SelectCounts(t[..n], i, limits, fits);
      var behind := FittingBehind(t[..n], i, fits);
      assert t[i + 1..][..|t[i + 1..]| - 1] == t[..n][i + 1..];
      assert FittingBehind(t, i, fits) == if fits(t[n]) then behind + {n} else behind;
    }
  }

  lemma KeptHolds(c: Corpus, t: Table, max: nat, limits: seq<nat>, fits: Row -> bool)
    requires Ordered(t) && forall row :: fits(row) == WellSized(row, limits)
    ensures Holds(t, Kept(t, Ids(c), max, limits), fits, row => AboutCurrent(c, row), max)
  {
    hide WellSized, Kept, Ordered, Ascending, AboutCurrent, IsCurrent, FittingBehind;
    CarriesExactly(t, Ids(c), max, limits);
    OrderedAscends(Kept(t, Ids(c), max, limits));
    forall i | 0 <= i < |t|
      ensures |Select(t[i + 1..], limits)| == |FittingBehind(t, i, fits)|
      ensures IsCurrent(t[i], Ids(c)) <==> AboutCurrent(c, t[i])
    {
      SelectCounts(t, i, limits, fits);
      CurrentExactly(c, t[i]);
    }
  }

  lemma NewestHolds(t: Table, max: nat, limits: seq<nat>, fits: Row -> bool)
    requires Ordered(t) && forall row :: fits(row) == WellSized(row, limits)
    ensures Holds(t, Newest(Select(t, limits), max), fits, _ => true, max)
  {
    hide WellSized, Select, Newest, Ordered, Ascending, FittingBehind;
    Selected(t, limits);
    NewestOrdered(Select(t, limits), max);
    OrderedAscends(Newest(Select(t, limits), max));
    NewestAmong(Select(t, limits), max);
    forall i | 0 <= i < |t|
      ensures t[i] in Newest(Select(t, limits), max) <==> fits(t[i]) && |FittingBehind(t, i, fits)| < max
    {
      NewestExactly(t, i, max, limits);
      SelectCounts(t, i, limits, fits);
    }
  }

  lemma NewestAmong(t: Table, max: nat)
    ensures forall row | row in Newest(t, max) :: row in t
  {
  }

  /** The logs of a rebuilt index. Of a log that is there and can be read: the newest 10000 retrievals, outcomes and
      lifecycles and the newest 5000 consolidations within their length limits; of the first three only those about
      memories that are there now, or about none, of the last all. Of any other log nothing. */
  lemma RebuiltLogs(tools: Tools, c: Corpus, prior: Db, fails: Step -> bool)
    requires Discovered(c) && Buildable(tools, c) && OrderedLogs(prior.logs)
    ensures var old', new' := prior.logs, Rebuilt(tools, c, Some(prior), fails).logs;
            && new'.retrieval.Some? && new'.lifecycle.Some? && new'.outcomes.Some? && new'.consolidation.Some?
            && (if old'.retrieval.Some? && !fails(ReadLog(RetrievalLog))
                then Holds(old'.retrieval.value, new'.retrieval.value, RetrievalFits, row => AboutCurrent(c, row), 10000)
                else new'.retrieval.value == [])
            && (if old'.lifecycle.Some? && !fails(ReadLog(LifecycleLog))
                then Holds(old'.lifecycle.value, new'.lifecycle.value, LifecycleFits, row => AboutCurrent(c, row), 10000)
                else new'.lifecycle.value == [])
            && (if old'.outcomes.Some? && !fails(ReadLog(OutcomeLog))
                then Holds(old'.outcomes.value, new'.outcomes.value, OutcomeFits, row => AboutCurrent(c, row), 10000)
                else new'.outcomes.value == [])
            && (if old'.consolidation.Some? && !fails(ReadLog(ConsolidationLog))
                then Holds(old'.consolidation.value, new'.consolidation.value, ConsolidationFits, _ => true, 5000)
                else new'.consolidation.value == [])
  {
    hide WellSized, Kept, Newest, Select, Ids, Indexed, Holds, AboutCurrent, Ordered, Buildable, Discovered;
    forall row
      ensures WellSized(row, RETRIEVAL_LIMITS) == RetrievalFits(row) && WellSized(row, LIFECYCLE_LIMITS) == LifecycleFits(row)
      ensures WellSized(row, OUTCOME_LIMITS) == OutcomeFits(row) && WellSized(row, CONSOLIDATION_LIMITS) == ConsolidationFits(row)
    {
      FitsExactly(row);
    }
    hide RetrievalFits, LifecycleFits, OutcomeFits, ConsolidationFits;
    var logs := prior.logs;
    if logs.retrieval.Some? {
      KeptHolds(c, logs.retrieval.value, 10000, RETRIEVAL_LIMITS, RetrievalFits);
    }
    if logs.lifecycle.Some? {
      KeptHolds(c, logs.lifecycle.value, 10000, LIFECYCLE_LIMITS, LifecycleFits);
    }
    if logs.outcomes.Some? {
      KeptHolds(c, logs.outcomes.value, 10000, OUTCOME_LIMITS, OutcomeFits);
    }
    if logs.consolidation.Some? {
      NewestHolds(logs.consolidation.value, 5000, CONSOLIDATION_LIMITS, ConsolidationFits);
    }
  }
}
