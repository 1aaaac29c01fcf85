/** The pages of the graph as a caller gets them: loaded through the index, if there is one, or from the files. */
module GraphDelivery {
  import opened Wrappers
  import opened GraphPaging
  import opened GraphIndex
  import MemoryCorpus
  import IndexRebuild

  type Drawn = GraphPaging.Memory

  /** What a caller asks for, and how a loaded memory is shown in the graph. */
  datatype Request = Request(
    loading: MemoryCorpus.Tools, drawing: GraphPaging.Tools, shown: GraphIndex.Memory -> Drawn, options: Options, preferIndex: bool)

  /** The files, and the rows of the index, if there is one. */
  datatype Vault = Vault(files: MemoryCorpus.Corpus, index: Option<seq<IndexRebuild.IndexRow>>)

  predicate ByIndex(q: Request, v: Vault) {
    q.preferIndex && v.index.Some?
  }

  function Shown(q: Request, memories: seq<GraphIndex.Memory>): (r: seq<Drawn>)
    ensures |r| == |memories| && forall k | 0 <= k < |r| :: r[k] == q.shown(memories[k])
  {
    seq(|memories|, k requires 0 <= k < |memories| => q.shown(memories[k]))
  }

  ghost function Loadable(q: Request, v: Vault): seq<GraphIndex.Memory>
    requires MemoryCorpus.Discovered(v.files)
  {
    if ByIndex(q, v) then FromRows(q.loading, q.options, v.files, v.index.value)
    else FromFiles(q.loading, q.options, v.files, v.files.order)
  }

  /** The loading of so many memories fails. */
  ghost predicate LoadFails(q: Request, v: Vault, max: nat)
    requires MemoryCorpus.Discovered(v.files)
  {
    if ByIndex(q, v) then ScanFails(q.loading, q.options, v.files, v.index.value, max)
    else |v.files.order| > MemoryCorpus.MAX_MEMORY_FILES || exists n :: Stumbles(q.loading, q.options, v.files, max, n)
  }

  /** The loading of all memories fails: more rows than are scanned, or more files than are discovered, or a file that
      cannot be read. */
  ghost predicate NeverComplete(q: Request, v: Vault)
    requires MemoryCorpus.Discovered(v.files)
  {
    if ByIndex(q, v) then |v.index.value| > 20000
    else |v.files.order| > 10000 || !Readable(q.loading, q.options, v.files, v.files.order)
  }

  /** The memories that are loaded for a page. */
  method LoadGraphMemories(q: Request, v: Vault, max: nat) returns (r: Result<seq<GraphIndex.Memory>, ()>)
    requires MemoryCorpus.Discovered(v.files) && max > 0
    ensures r.Err? <==> LoadFails(q, v, max)
    ensures r.Ok? ==> r.value == FirstOf(Loadable(q, v), max)
  {
    hide FromRows, FromFiles, ScanFails, Stumbles, MemoryCorpus.Discovered;
    if q.preferIndex && v.index.Some? {
      r := LoadFromIndex(q.loading, q.options, v.files, v.index.value, max);
    } else {
      r := LoadFromMarkdown(q.loading, q.options, v.files, max);
    }
  }

  /** A page is delivered exactly for legal options, limits and offsets, if neither the loading of one memory more than the
      page needs fails, nor its graph exceeds a cap. */
  method DeliverPage(q: Request, v: Vault, limit: int, offset: int) returns (r: Option<Page>)
    requires MemoryCorpus.Discovered(v.files)
    ensures r.Some? <==>
              && !(q.options.publicOnly && q.options.includeSensitive) && 1 <= limit <= 2000 && 0 <= offset <= 10000
              && !LoadFails(q, v, offset + limit + 1)
              && var graph := GraphOf(q.drawing, PageAt(Shown(q, Loadable(q, v)), limit, offset).0);
                 |graph.nodes| <= 10000 && |graph.edges| <= 25000
    ensures r.Some? ==>
              var (page, next) := PageAt(Shown(q, Loadable(q, v)), limit, offset);
              r.value == Page(GraphOf(q.drawing, page), page, next)
  {
    hide Loadable, LoadFails, GraphOf, PageAt, Shown, MemoryCorpus.Discovered;
    if (q.options.publicOnly && q.options.includeSensitive) || !(1 <= limit <= GRAPH_MAX_LIMIT)
       || !(0 <= offset <= GRAPH_MAX_OFFSET) {
      return None;
    }
    var memories := LoadGraphMemories(q, v, offset + limit + 1);
    if memories.Err? {
      return None;
    }
    EnoughLoaded(q, Loadable(q, v), limit, offset);
    r := BuildGraph(q.drawing, Shown(q, memories.value), limit, offset);
  }

  lemma EnoughLoaded(q: Request, all: seq<GraphIndex.Memory>, limit: nat, offset: nat)
    ensures PageAt(Shown(q, FirstOf(all, offset + limit + 1)), limit, offset) == PageAt(Shown(q, all), limit, offset)
  {
    var some, whole := Shown(q, FirstOf(all, offset + limit + 1)), Shown(q, all);
    assert |all| <= offset + limit + 1 ==> some == whole;
    if |all| > offset + limit + 1 && limit >= 1 {
      assert some[offset..offset + limit] == whole[offset..offset + limit];
    }
  }

  /** All pages from an offset on, following `next_offset`; none if one of them is not delivered. */
  ghost function Delivered(q: Request, v: Vault, limit: nat, offset: nat): Option<seq<seq<Drawn>>>
    requires MemoryCorpus.Discovered(v.files) && limit >= 1
    decreases |Loadable(q, v)| - offset
  {
    var (page, next) := PageAt(Shown(q, Loadable(q, v)), limit, offset);
    if offset > GRAPH_MAX_OFFSET || LoadFails(q, v, offset + limit + 1) || !WithinCaps(GraphOf(q.drawing, page)) then None
    else
      match next
      case None => Some([page])
      case Some(n) =>
        match Delivered(q, v, limit, n)
        case None => None
        case Some(rest) => Some([page] + rest)
  }

  lemma SometimesFails(q: Request, v: Vault, max: nat)
    requires MemoryCorpus.Discovered(v.files)
    ensures LoadFails(q, v, max) ==> NeverComplete(q, v)
    ensures max > |Loadable(q, v)| && NeverComplete(q, v) ==> LoadFails(q, v, max)
  {
    hide FromFile;
    if ByIndex(q, v) {
      hide FromRows;
      if |v.index.value| > MAX_ROWS_SCANNED {
        FromRowsGrows(q.loading, q.options, v.files, v.index.value, MAX_ROWS_SCANNED);
      }
    } else {
      UnreadableStumbles(q, v, max);
    }
  }

  lemma UnreadableStumbles(q: Request, v: Vault, max: nat)
    requires MemoryCorpus.Discovered(v.files)
    ensures var t, o, c := q.loading, q.options, v.files;
            && ((exists n :: Stumbles(t, o, c, max, n)) ==> !Readable(t, o, c, c.order))
            && (max > |FromFiles(t, o, c, c.order)| && !Readable(t, o, c, c.order) ==> exists n :: Stumbles(t, o, c, max, n))
  {
    hide FromFile, FromFiles, MemoryCorpus.PathLess;
    var t, o, c := q.loading, q.options, v.files;
    if !Readable(t, o, c, c.order) && max > |FromFiles(t, o, c, c.order)| {
      var p :| p in c.order && FromFile(t, o, p, c.files[p]).Err?;
      var n: nat :| n < |c.order| && c.order[n] == p;
      FromFilesGrows(t, o, c, c.order, n);
      assert Stumbles(t, o, c, max, n);
    }
  }

  /** Whether the pages reach the end is decided at the end: the last page needs one memory more than there are. */
  lemma {:induction false} DeliveredFollows(q: Request, v: Vault, limit: nat, offset: nat)
    requires MemoryCorpus.Discovered(v.files) && limit >= 1
    ensures Delivered(q, v, limit, offset) ==
            if NeverComplete(q, v) then None else Follow(q.drawing, Shown(q, Loadable(q, v)), limit, offset)
    decreases |Loadable(q, v)| - offset
  {
    hide Loadable, LoadFails, NeverComplete, GraphOf, WithinCaps, Shown, MemoryCorpus.Discovered;
    SometimesFails(q, v, offset + limit + 1);
    if offset + limit < |Loadable(q, v)| {
      DeliveredFollows(q, v, limit, offset + limit);
    }
  }

  /** Following the delivered pages from the start visits everything that can be loaded exactly once and in order, in as few
      pages as possible. It succeeds if and only if all rows are scanned, or all files read, the last page can still be asked
      for, and the graph of every page is within the caps; if not all are, the last page always fails. */
  lemma DeliveryIsExact(q: Request, v: Vault, limit: nat)
    requires MemoryCorpus.Discovered(v.files) && 1 <= limit <= GRAPH_MAX_LIMIT
    ensures var all := Shown(q, Loadable(q, v));
            var pages, k := Delivered(q, v, limit, 0), PageCount(|all|, limit);
            && (pages.Some? <==>
                  && !NeverComplete(q, v) && (k - 1) * limit <= GRAPH_MAX_OFFSET
                  && forall j | 0 <= j < k :: PageFits(q.drawing, all, limit, j))
            && (pages.Some? ==> |pages.value| == k && Flatten(pages.value) == all
                                && forall j | 0 <= j < k :: |pages.value[j]| <= limit)
  {
    hide Delivered, Follow, Flatten, PageFits, Loadable, NeverComplete, Shown, MemoryCorpus.Discovered;
    DeliveredFollows(q, v, limit, 0);
    PagingIsExact(q.drawing, Shown(q, Loadable(q, v)), limit);
  }

  // ---------------------------------------------------------------------------------------------
  // Right after a rebuild
  // ---------------------------------------------------------------------------------------------

  /** The graph shows every memory under its path. */
  ghost predicate ShowsPaths(q: Request) {
    forall m :: q.shown(m).path == m.path
  }

  lemma ShownMembers(q: Request, a: seq<GraphIndex.Memory>, b: seq<GraphIndex.Memory>)
    requires SameMemories(a, b)
    ensures forall x :: x in Shown(q, a) ==> x in Shown(q, b)
  {
    forall x | x in Shown(q, a)
      ensures x in Shown(q, b)
    {
      var k :| 0 <= k < |a| && Shown(q, a)[k] == x;
      assert a[k] in a && a[k] in b;
      var j :| 0 <= j < |b| && b[j] == a[k];
      assert Shown(q, b)[j] == x;
    }
  }

  /** Sequences of the same memories, each in the order of its paths, that are shown alike. */
  lemma ShownApart(q: Request, a: seq<GraphIndex.Memory>, b: seq<GraphIndex.Memory>)
    requires ShowsPaths(q) && TextSorted(a) && PathSorted(b)
    ensures Shown(q, a) == Shown(q, b) ==> NoneCrossed(b)
  {
    hide MemoryCorpus.TextLess, MemoryCorpus.PathLess;
    if Shown(q, a) == Shown(q, b) {
      forall k | 0 <= k < |b|
        ensures a[k].path == b[k].path
      {
        assert Shown(q, a)[k].path == Shown(q, b)[k].path;
      }
      assert |a| == |b|;
      assert TextSorted(b);
      SortedBothWays(b);
    }
  }

  /** Right after a rebuild, with the memories unchanged: of the two ways to page through the graph, neither fails for what is
      loaded; both visit the same memories in the same number of pages; and the pages are the same if and only if no two
      wanted paths are put differently by the two orders. */
  lemma BothWaysVisitTheSame(q: Request, v: Vault, limit: nat)
    requires MemoryCorpus.Discovered(v.files) && IndexRebuild.Buildable(q.loading, v.files) && Plain(q.loading, v.files)
    requires v.index.Some? && FreshRows(q.loading, v.files, v.index.value)
    requires 1 <= limit <= GRAPH_MAX_LIMIT && ShowsPaths(q)
    ensures var byIndex, byFiles := q.(preferIndex := true), q.(preferIndex := false);
            var i, f := Delivered(byIndex, v, limit, 0), Delivered(byFiles, v, limit, 0);
            && !NeverComplete(byIndex, v) && !NeverComplete(byFiles, v)
            && (i.Some? && f.Some? ==>
                  |i.value| == |f.value| && forall m :: m in Flatten(i.value) <==> m in Flatten(f.value))
            && (i.Some? || f.Some? ==> (i == f <==> NoneCrossed(Loadable(byFiles, v))))
  {
    hide Delivered, Follow, Flatten, PageFits, Shown, MemoryCorpus.Discovered, IndexRebuild.Buildable, Plain, FreshRows,
         FromRows, FromFiles, NoneCrossed, ShowsPaths, TextSorted, PathSorted, SameMemories, ScanFails, Stumbles, Readable;
    var byIndex, byFiles := q.(preferIndex := true), q.(preferIndex := false);
    var t, o, c, rows := q.loading, q.options, v.files, v.index.value;
    FreshIndexAgrees(t, o, c, rows);
    FreshAreSorted(t, o, c, rows);
    FreshComplete(q, v);
    DeliveryIsExact(byIndex, v, limit);
    DeliveryIsExact(byFiles, v, limit);
    DeliveredFollows(byIndex, v, limit, 0);
    DeliveredFollows(byFiles, v, limit, 0);
    var a, b := Loadable(byIndex, v), Loadable(byFiles, v);
    ShownAlike(q, a);
    ShownAlike(q, b);
    ShownBoth(q, a, b);
    ShownApart(q, a, b);
  }

  lemma ShownBoth(q: Request, a: seq<GraphIndex.Memory>, b: seq<GraphIndex.Memory>)
    requires SameMemories(a, b)
    ensures forall x :: x in Shown(q, a) <==> x in Shown(q, b)
  {
    hide Shown;
    assert SameMemories(b, a);
    ShownMembers(q, a, b);
    ShownMembers(q, b, a);
  }

  lemma ShownAlike(q: Request, memories: seq<GraphIndex.Memory>)
    ensures Shown(q.(preferIndex := true), memories) == Shown(q, memories) == Shown(q.(preferIndex := false), memories)
  {
  }

  lemma FreshComplete(q: Request, v: Vault)
    requires MemoryCorpus.Discovered(v.files) && IndexRebuild.Buildable(q.loading, v.files) && Plain(q.loading, v.files)
    requires v.index.Some? && FreshRows(q.loading, v.files, v.index.value)
    ensures !NeverComplete(q.(preferIndex := true), v) && !NeverComplete(q.(preferIndex := false), v)
  {
    hide Wanted, Slashed, FromFiles, MemoryCorpus.PathLess, MemoryCorpus.TextLess;
    FreshOwnPaths(q.loading, q.options, v.files, v.index.value);
  }
}
