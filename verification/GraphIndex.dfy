/** The index as a cache of the Markdown memories: a row is only a hint where to look again. */
module GraphIndex {
  import opened Wrappers
  import opened MemoryCorpus
  import opened IndexRebuild

  const MAX_ROWS_SCANNED := 20000

  datatype Options = Options(includeSensitive: bool, publicOnly: bool)

  /** A memory of the graph: where it is, and the document it was made from. */
  datatype Memory = Memory(path: string, document: Document)

  predicate Wanted(o: Options, sensitivity: string) {
    && (o.publicOnly ==> sensitivity == "public")
    && (o.includeSensitive || sensitivity == "public" || sensitivity == "internal")
  }

  /** The loaders stop at the most memories that are asked for. */
  function FirstOf(memories: seq<Memory>, max: nat): seq<Memory> {
    if |memories| <= max then memories else memories[..max]
  }

  function Slashed(path: string): string {
    if path == "" then "" else [if path[0] == '\\' then '/' else path[0]] + Slashed(path[1..])
  }

  // ---------------------------------------------------------------------------------------------
  // Through the Markdown files
  // ---------------------------------------------------------------------------------------------

  /** What one discovered file gives: nothing, a memory, or the failure of the whole reading. */
  function FromFile(tools: Tools, o: Options, path: string, file: File): Result<Option<Memory>, ()> {
    match file.document
    case None => Err(())
    case Some(d) =>
      if !tools.valid(d) then Ok(None)
      else if file.linked || file.flagged then Err(())
      else if d.front.sensitivity == SECRET || !Wanted(o, d.front.sensitivity) then Ok(None)
      else Ok(Some(Memory(path, d)))
  }

  function FromFiles(tools: Tools, o: Options, c: Corpus, paths: seq<string>): seq<Memory>
    requires forall p | p in paths :: p in c.files
  {
    if paths == [] then []
    else
      var path := paths[|paths| - 1];
      FromFiles(tools, o, c, paths[..|paths| - 1])
      + match FromFile(tools, o, path, c.files[path])
        case Ok(Some(m)) => [m]
        case _ => []
  }

  lemma {:induction false} FromFilesGrows(tools: Tools, o: Options, c: Corpus, paths: seq<string>, k: nat)
    requires k <= |paths| && forall p | p in paths :: p in c.files
    ensures FromFiles(tools, o, c, paths[..k]) <= FromFiles(tools, o, c, paths)
    decreases |paths|
  {
    hide FromFile;
    if k == |paths| {
      assert paths[..k] == paths;
    } else {
      FromFilesGrows(tools, o, c, paths[..|paths| - 1], k);
      assert paths[..|paths| - 1][..k] == paths[..k];
    }
  }

  predicate Readable(tools: Tools, o: Options, c: Corpus, paths: seq<string>)
    requires forall p | p in paths :: p in c.files
  {
    forall p | p in paths :: FromFile(tools, o, p, c.files[p]).Ok?
  }

  /** A file that makes the reading fail, with too few memories before it. */
  ghost predicate Stumbles(tools: Tools, o: Options, c: Corpus, max: nat, n: nat)
    requires forall p | p in c.order :: p in c.files
  {
    n < |c.order| && FromFile(tools, o, c.order[n], c.files[c.order[n]]).Err? && |FromFiles(tools, o, c, c.order[..n])| < max
  }

  /** The files before this one can be read, and have given too few memories. */
  ghost predicate Underway(tools: Tools, o: Options, c: Corpus, max: nat, k: nat, memories: seq<Memory>)
    requires forall p | p in c.order :: p in c.files
  {
    && k <= |c.order| && memories == FromFiles(tools, o, c, c.order[..k]) && |memories| < max
    && forall n: nat | n < k :: FromFile(tools, o, c.order[n], c.files[c.order[n]]).Ok?
  }

  lemma OneFileMore(tools: Tools, o: Options, c: Corpus, max: nat, k: nat, memories: seq<Memory>)
    requires (forall p | p in c.order :: p in c.files) && Underway(tools, o, c, max, k, memories) && k < |c.order|
    ensures var found := FromFile(tools, o, c.order[k], c.files[c.order[k]]);
            && (found.Err? ==> Stumbles(tools, o, c, max, k))
            && (found.Ok? ==>
                  var more := memories + if found.value.Some? then [found.value.value] else [];
                  && more == FromFiles(tools, o, c, c.order[..k + 1])
                  && (|more| < max ==> Underway(tools, o, c, max, k + 1, more)))
  {
    hide FromFile;
    assert c.order[..k + 1][..k] == c.order[..k];
  }

  /** Once there are enough memories, or no more files, no file makes the reading fail. */
  lemma NoneStumbles(tools: Tools, o: Options, c: Corpus, max: nat, k: nat)
    requires (forall p | p in c.order :: p in c.files) && k <= |c.order|
    requires forall n: nat | n < k :: FromFile(tools, o, c.order[n], c.files[c.order[n]]).Ok?
    requires k == |c.order| || |FromFiles(tools, o, c, c.order[..k])| >= max
    ensures forall n :: !Stumbles(tools, o, c, max, n)
  {
    hide FromFile, FromFiles;
    forall n: nat | k <= n < |c.order|
      ensures !Stumbles(tools, o, c, max, n)
    {
      FromFilesGrows(tools, o, c, c.order[..n], k);
      assert c.order[..n][..k] == c.order[..k];
    }
  }

  /** Discovery gives up on too many files; the reading fails at a file that cannot be read, and stops when there are
      enough memories. */
  method LoadFromMarkdown(tools: Tools, o: Options, c: Corpus, max: nat) returns (r: Result<seq<Memory>, ()>)
    requires Discovered(c) && max > 0
    ensures r.Ok? ==> r.value == FirstOf(FromFiles(tools, o, c, c.order), max)
    ensures r.Err? <==> |c.order| > MAX_MEMORY_FILES || exists n :: Stumbles(tools, o, c, max, n)
  {
    hide FromFile, FromFiles, Stumbles, Underway, PathLess;
    if |c.order| > MAX_MEMORY_FILES {
      return Err(());
    }
    var memories := [];
    NothingFound(tools, o, c, max);
    for k := 0 to |c.order|
      invariant Underway(tools, o, c, max, k, memories) && |memories| < max
    {
      OneFileMore(tools, o, c, max, k, memories);
      var path := c.order[k];
      var found := FromFile(tools, o, path, c.files[path]);
      if found.Err? {
        return Err(());
      }
      ghost var before := memories;
      if found.value.Some? {
        memories := memories + [found.value.value];
        if |memories| >= max {
          StopsHere(tools, o, c, max, k, before);
          return Ok(memories);
        }
      }
      assert memories == before + if found.value.Some? then [found.value.value] else [];
    }
    ReadsAll(tools, o, c, max, memories);
    return Ok(memories);
  }

  lemma NothingFound(tools: Tools, o: Options, c: Corpus, max: nat)
    requires (forall p | p in c.order :: p in c.files) && max > 0
    ensures Underway(tools, o, c, max, 0, [])
  {
  }

  lemma StopsHere(tools: Tools, o: Options, c: Corpus, max: nat, k: nat, before: seq<Memory>)
    requires (forall p | p in c.order :: p in c.files) && Underway(tools, o, c, max, k, before) && k < |c.order|
    requires var found := FromFile(tools, o, c.order[k], c.files[c.order[k]]);
             found.Ok? && found.value.Some? && |before| + 1 >= max
    ensures var found := FromFile(tools, o, c.order[k], c.files[c.order[k]]).value.value;
            before + [found] == FirstOf(FromFiles(tools, o, c, c.order), max)
    ensures forall n :: !Stumbles(tools, o, c, max, n)
  {
    hide FromFile, FromFiles, Stumbles;
    OneFileMore(tools, o, c, max, k, before);
    NoneStumbles(tools, o, c, max, k + 1);
    FromFilesGrows(tools, o, c, c.order, k + 1);
    EnoughAre(before, FromFile(tools, o, c.order[k], c.files[c.order[k]]).value.value, FromFiles(tools, o, c, c.order), max);
  }

  lemma EnoughAre(before: seq<Memory>, found: Memory, all: seq<Memory>, max: nat)
    requires before + [found] <= all && |before| < max <= |before| + 1
    ensures before + [found] == FirstOf(all, max)
  {
  }

  lemma ReadsAll(tools: Tools, o: Options, c: Corpus, max: nat, memories: seq<Memory>)
    requires (forall p | p in c.order :: p in c.files) && Underway(tools, o, c, max, |c.order|, memories)
    ensures memories == FirstOf(FromFiles(tools, o, c, c.order), max)
    ensures forall n :: !Stumbles(tools, o, c, max, n)
  {
    hide FromFile, FromFiles, Stumbles;
    NoneStumbles(tools, o, c, max, |c.order|);
    assert c.order[..|c.order|] == c.order;
  }

  // ---------------------------------------------------------------------------------------------
  // Through the index
  // ---------------------------------------------------------------------------------------------

  /** The memory behind an index row, if the file there still is what the row says. */
  function Canonical(tools: Tools, c: Corpus, row: IndexRow): Option<Memory> {
    var indexed := Slashed(row.path);
    var candidate := tools.normal(indexed);
    if candidate !in c.files then None
    else
      var file := c.files[candidate];
      if file.linked || file.flagged || file.document.None? || !tools.valid(file.document.value) then None
      else
        var d := file.document.value;
        if candidate != indexed || d.front.id != row.id || tools.hash(d) != row.hash then None
        else Some(Memory(candidate, d))
  }

  function FromRow(tools: Tools, o: Options, c: Corpus, row: IndexRow): seq<Memory> {
    match Canonical(tools, c, row)
    case Some(m) => if Wanted(o, m.document.front.sensitivity) then [m] else []
    case None => []
  }

  function FromRows(tools: Tools, o: Options, c: Corpus, rows: seq<IndexRow>): seq<Memory> {
    if rows == [] then [] else FromRows(tools, o, c, rows[..|rows| - 1]) + FromRow(tools, o, c, rows[|rows| - 1])
  }

  /** The rows before this one have given too few memories. */
  ghost predicate Scanning(tools: Tools, o: Options, c: Corpus, rows: seq<IndexRow>, max: nat, k: nat, memories: seq<Memory>) {
    k <= |rows| && memories == FromRows(tools, o, c, rows[..k]) && |memories| < max
  }

  lemma OneRowMore(tools: Tools, o: Options, c: Corpus, rows: seq<IndexRow>, max: nat, k: nat, memories: seq<Memory>)
    requires Scanning(tools, o, c, rows, max, k, memories) && k < |rows|
    ensures memories + FromRow(tools, o, c, rows[k]) == FromRows(tools, o, c, rows[..k + 1])
    ensures memories + FromRow(tools, o, c, rows[k]) <= FromRows(tools, o, c, rows)
  {
    hide FromRow;
    assert rows[..k + 1][..k] == rows[..k];
    FromRowsGrows(tools, o, c, rows, k + 1);
  }

  lemma EnoughRows(tools: Tools, o: Options, c: Corpus, rows: seq<IndexRow>, max: nat, k: nat)
    requires k <= MAX_ROWS_SCANNED && k <= |rows| && |FromRows(tools, o, c, rows[..k])| >= max
    ensures |rows| > MAX_ROWS_SCANNED ==> |FromRows(tools, o, c, rows[..MAX_ROWS_SCANNED])| >= max
  {
    hide FromRows;
    if |rows| > MAX_ROWS_SCANNED {
      FromRowsGrows(tools, o, c, rows[..MAX_ROWS_SCANNED], k);
      assert rows[..MAX_ROWS_SCANNED][..k] == rows[..k];
    }
  }

  /** The row limit comes before enough memories are found. */
  predicate ScanFails(tools: Tools, o: Options, c: Corpus, rows: seq<IndexRow>, max: nat) {
    |rows| > MAX_ROWS_SCANNED && |FromRows(tools, o, c, rows[..MAX_ROWS_SCANNED])| < max
  }

  /** The scan gives up only if its row limit comes before enough memories are found. */
  method LoadFromIndex(tools: Tools, o: Options, c: Corpus, rows: seq<IndexRow>, max: nat) returns (r: Result<seq<Memory>, ()>)
    requires max > 0
    ensures r.Ok? ==> r.value == FirstOf(FromRows(tools, o, c, rows), max)
    ensures r.Err? <==> ScanFails(tools, o, c, rows, max)
  {
    hide FromRows, Canonical, Wanted, Scanning;
    var memories := [];
    NothingScanned(tools, o, c, rows, max);
    for k := 0 to |rows|
      invariant k <= MAX_ROWS_SCANNED
      invariant Scanning(tools, o, c, rows, max, k, memories) && |memories| < max
    {
      if k + 1 > MAX_ROWS_SCANNED {
        ScanStops(tools, o, c, rows, max, k, memories);
        return Err(());
      }
      OneRowMore(tools, o, c, rows, max, k, memories);
      RowScanned(tools, o, c, rows, max, k, memories);
      var memory := Canonical(tools, c, rows[k]);
      if memory.None? || !Wanted(o, memory.value.document.front.sensitivity) {
        assert memories + [] == memories;
        continue;
      }
      ghost var before := memories;
      memories := memories + [memory.value];
      if |memories| >= max {
        EnoughRows(tools, o, c, rows, max, k + 1);
        EnoughAre(before, memory.value, FromRows(tools, o, c, rows), max);
        return Ok(memories);
      }
    }
    ScanEnds(tools, o, c, rows, max, memories);
    return Ok(memories);
  }

  lemma NothingScanned(tools: Tools, o: Options, c: Corpus, rows: seq<IndexRow>, max: nat)
    requires max > 0
    ensures Scanning(tools, o, c, rows, max, 0, [])
  {
  }

  lemma RowScanned(tools: Tools, o: Options, c: Corpus, rows: seq<IndexRow>, max: nat, k: nat, memories: seq<Memory>)
    requires Scanning(tools, o, c, rows, max, k, memories) && k < |rows|
    ensures var more := memories + FromRow(tools, o, c, rows[k]); |more| < max ==> Scanning(tools, o, c, rows, max, k + 1, more)
  {
    OneRowMore(tools, o, c, rows, max, k, memories);
    hide FromRows, FromRow;
  }

  lemma ScanStops(tools: Tools, o: Options, c: Corpus, rows: seq<IndexRow>, max: nat, k: nat, memories: seq<Memory>)
    requires Scanning(tools, o, c, rows, max, k, memories) && k == MAX_ROWS_SCANNED < |rows|
    ensures ScanFails(tools, o, c, rows, max)
  {
    hide FromRows;
  }

  lemma ScanEnds(tools: Tools, o: Options, c: Corpus, rows: seq<IndexRow>, max: nat, memories: seq<Memory>)
    requires Scanning(tools, o, c, rows, max, |rows|, memories)
    ensures memories == FirstOf(FromRows(tools, o, c, rows), max)
  {
    hide FromRows;
    assert rows[..|rows|] == rows;
  }

  lemma {:induction false} FromRowsGrows(tools: Tools, o: Options, c: Corpus, rows: seq<IndexRow>, k: nat)
    requires k <= |rows|
    ensures FromRows(tools, o, c, rows[..k]) <= FromRows(tools, o, c, rows)
    decreases |rows|
  {
    hide FromRow;
    if k < |rows| {
      FromRowsGrows(tools, o, c, rows[..|rows| - 1], k);
      assert rows[..|rows| - 1][..k] == rows[..k];
    } else {
      assert rows[..k] == rows;
    }
  }

  // ---------------------------------------------------------------------------------------------
  // The index is only a cache
  // ---------------------------------------------------------------------------------------------

  /** A row that some rebuild wrote, for a corpus as it was then. */
  ghost predicate Written(tools: Tools, row: IndexRow) {
    exists d: Document :: d.front.sensitivity != SECRET && row.id == d.front.id && row.hash == tools.hash(d)
  }

  lemma {:induction false} RebuildWrites(tools: Tools, c: Corpus, paths: seq<string>)
    requires forall p | p in paths :: p in c.files && c.files[p].document.Some?
    ensures forall row | row in Indexed(tools, c, paths) ::
              Written(tools, row) && row.path in paths && c.files[row.path].document.value.front.sensitivity != SECRET
              && row == IndexRow(c.files[row.path].document.value.front.id, row.path, tools.hash(c.files[row.path].document.value))
    ensures forall p | p in paths && c.files[p].document.value.front.sensitivity != SECRET ::
              IndexRow(c.files[p].document.value.front.id, p, tools.hash(c.files[p].document.value)) in Indexed(tools, c, paths)
    decreases |paths|
  {
    if paths != [] {
      var n := |paths| - 1;
      assert forall p :: p in paths <==> p in paths[..n] || p == paths[n];
      RebuildWrites(tools, c, paths[..n]);
      var d := c.files[paths[n]].document.value;
      if d.front.sensitivity != SECRET {
        assert Written(tools, IndexRow(d.front.id, paths[n], tools.hash(d)));
      }
    }
  }

  lemma {:induction false} InFromRows(tools: Tools, o: Options, c: Corpus, rows: seq<IndexRow>, m: Memory)
    ensures m in FromRows(tools, o, c, rows) <==> exists row :: row in rows && FromRow(tools, o, c, row) == [m]
    decreases |rows|
  {
    if rows != [] {
      var n := |rows| - 1;
      InFromRows(tools, o, c, rows[..n], m);
      assert forall row :: row in rows <==> row in rows[..n] || row == rows[n];
      assert |FromRow(tools, o, c, rows[n])| <= 1;
      hide FromRow;
      assert m in FromRow(tools, o, c, rows[n]) ==> FromRow(tools, o, c, rows[n]) == [m];
    }
  }

  lemma {:induction false} InFromFiles(tools: Tools, o: Options, c: Corpus, paths: seq<string>, m: Memory)
    requires forall p | p in paths :: p in c.files
    ensures m in FromFiles(tools, o, c, paths) <==> m.path in paths && FromFile(tools, o, m.path, c.files[m.path]) == Ok(Some(m))
    decreases |paths|
  {
    if paths != [] {
      var n := |paths| - 1;
      assert forall p :: p in paths <==> p in paths[..n] || p == paths[n];
      InFromFiles(tools, o, c, paths[..n], m);
    }
  }

  /** However stale the index, a memory it leads to is one that the Markdown files themselves give now, with the
      same document; in particular never one whose content is prohibited. */
  lemma StaleRowIsSafe(tools: Tools, o: Options, c: Corpus, row: IndexRow, m: Memory)
    requires HashTells(tools) && Written(tools, row) && FromRow(tools, o, c, row) == [m]
    ensures m.path in c.files && FromFile(tools, o, m.path, c.files[m.path]) == Ok(Some(m))
    ensures m.document.front.sensitivity != SECRET
  {
    var d: Document :| d.front.sensitivity != SECRET && row.id == d.front.id && row.hash == tools.hash(d);
    assert Canonical(tools, c, row) == Some(m);
    assert tools.hash(m.document) == tools.hash(d);
    hide Wanted, Slashed;
  }

  /** The whole result of a stale index, whatever corpora its rows were written for. */
  lemma StaleIndexIsSafe(tools: Tools, o: Options, c: Corpus, rows: seq<IndexRow>)
    requires Discovered(c) && HashTells(tools) && forall row | row in rows :: Written(tools, row)
    ensures forall m | m in FromRows(tools, o, c, rows) :: m in FromFiles(tools, o, c, c.order) && m.document.front.sensitivity != SECRET
  {
    hide FromRow, FromFile, FromFiles, FromRows, Written;
    forall m | m in FromRows(tools, o, c, rows)
      ensures m in FromFiles(tools, o, c, c.order) && m.document.front.sensitivity != SECRET
    {
      InFromRows(tools, o, c, rows, m);
      var row :| row in rows && FromRow(tools, o, c, row) == [m];
      StaleRowIsSafe(tools, o, c, row, m);
      InFromFiles(tools, o, c, c.order, m);
    }
  }

  /** Discovered paths are normal and use forward slashes; no link leads to a memory. */
  ghost predicate Plain(tools: Tools, c: Corpus) {
    forall p | p in c.files :: tools.normal(p) == p && Slashed(p) == p && !c.files[p].linked
  }

  lemma FreshRowLeadsBack(tools: Tools, o: Options, c: Corpus, p: string)
    requires Discovered(c) && Buildable(tools, c) && Plain(tools, c) && p in c.files
    ensures var d := c.files[p].document.value;
            FromRow(tools, o, c, IndexRow(d.front.id, p, tools.hash(d))) == if Wanted(o, d.front.sensitivity) then [Memory(p, d)] else []
  {
    hide Wanted, Slashed;
  }

  // ---------------------------------------------------------------------------------------------
  // Right after a rebuild
  // ---------------------------------------------------------------------------------------------

  /** The rows that a rebuild has just written, in the order of their paths as texts. */
  ghost predicate FreshRows(tools: Tools, c: Corpus, rows: seq<IndexRow>)
    requires Discovered(c) && Buildable(tools, c)
  {
    && multiset(rows) == multiset(Indexed(tools, c, c.order))
    && forall a, b | 0 <= a < b < |rows| :: TextLess(rows[a].path, rows[b].path)
  }

  ghost predicate TextSorted(memories: seq<Memory>) {
    forall a, b | 0 <= a < b < |memories| :: TextLess(memories[a].path, memories[b].path)
  }

  ghost predicate PathSorted(memories: seq<Memory>) {
    forall a, b | 0 <= a < b < |memories| :: PathLess(memories[a].path, memories[b].path)
  }

  /** No two of the memories have paths that the two orders put differently. */
  ghost predicate NoneCrossed(memories: seq<Memory>) {
    forall a, b | a in memories && b in memories :: !Crossed(a.path, b.path)
  }

  ghost predicate SameMemories(a: seq<Memory>, b: seq<Memory>) {
    forall m :: m in a <==> m in b
  }

  lemma {:induction false} IndexedSize(tools: Tools, c: Corpus, paths: seq<string>)
    requires forall p | p in paths :: p in c.files && c.files[p].document.Some?
    ensures |Indexed(tools, c, paths)| <= |paths|
    decreases |paths|
  {
    if paths != [] {
      IndexedSize(tools, c, paths[..|paths| - 1]);
    }
  }

  lemma SameSize<T>(a: seq<T>, b: seq<T>)
    requires multiset(a) == multiset(b)
    ensures |a| == |b| && forall x :: x in a <==> x in b
  {
    assert |multiset(a)| == |a| && |multiset(b)| == |b|;
    assert forall x :: (x in a <==> x in multiset(a)) && (x in b <==> x in multiset(b));
  }

  lemma FreshMembers(tools: Tools, o: Options, c: Corpus, rows: seq<IndexRow>, m: Memory)
    requires Discovered(c) && Buildable(tools, c) && Plain(tools, c) && FreshRows(tools, c, rows)
    ensures m in FromRows(tools, o, c, rows) <==> m in FromFiles(tools, o, c, c.order)
  {
    hide Wanted, Slashed, FromRows, FromFiles, FromRow, Indexed, Written, PathLess, TextLess;
    RebuildWrites(tools, c, c.order);
    SameSize(rows, Indexed(tools, c, c.order));
    InFromRows(tools, o, c, rows, m);
    InFromFiles(tools, o, c, c.order, m);
    if m in FromRows(tools, o, c, rows) {
      var row :| row in rows && FromRow(tools, o, c, row) == [m];
      FreshRowLeadsBack(tools, o, c, row.path);
    }
    if m.path in c.files && FromFile(tools, o, m.path, c.files[m.path]) == Ok(Some(m)) {
      FreshRowLeadsBack(tools, o, c, m.path);
      assert IndexRow(m.document.front.id, m.path, tools.hash(m.document)) in rows;
    }
  }

  /** A row leads to no other path than its own, in a corpus of plain paths. */
  ghost predicate OwnPath(tools: Tools, o: Options, c: Corpus, row: IndexRow) {
    forall m | FromRow(tools, o, c, row) == [m] :: m.path == row.path
  }

  lemma {:induction false} FromRowsSorted(tools: Tools, o: Options, c: Corpus, rows: seq<IndexRow>)
    requires forall a, b | 0 <= a < b < |rows| :: TextLess(rows[a].path, rows[b].path)
    requires forall row | row in rows :: OwnPath(tools, o, c, row)
    ensures TextSorted(FromRows(tools, o, c, rows))
    ensures forall m | m in FromRows(tools, o, c, rows) :: exists k :: 0 <= k < |rows| && rows[k].path == m.path
    decreases |rows|
  {
    hide TextLess, FromRow;
    if rows != [] {
      var n := |rows| - 1;
      FromRowsSorted(tools, o, c, rows[..n]);
      RowGivesOne(tools, o, c, rows[n]);
      assert forall k | 0 <= k < n :: rows[..n][k] == rows[k];
      assert rows[n] in rows;
    }
  }

  lemma RowGivesOne(tools: Tools, o: Options, c: Corpus, row: IndexRow)
    ensures FromRow(tools, o, c, row) == [] || exists m :: FromRow(tools, o, c, row) == [m]
  {
    hide Canonical, Wanted;
  }

  lemma {:induction false} FromFilesSorted(tools: Tools, o: Options, c: Corpus, paths: seq<string>)
    requires forall p | p in paths :: p in c.files
    requires forall a, b | 0 <= a < b < |paths| :: PathLess(paths[a], paths[b])
    ensures PathSorted(FromFiles(tools, o, c, paths))
    ensures forall m | m in FromFiles(tools, o, c, paths) :: exists k :: 0 <= k < |paths| && paths[k] == m.path
    decreases |paths|
  {
    hide PathLess, Wanted;
    if paths != [] {
      var n := |paths| - 1;
      FromFilesSorted(tools, o, c, paths[..n]);
      assert forall k | 0 <= k < n :: paths[..n][k] == paths[k];
    }
  }

  /** Strictly sorted sequences of the same memories are the same. */
  lemma {:induction false} SortedUnique(a: seq<Memory>, b: seq<Memory>)
    requires TextSorted(a) && TextSorted(b) && SameMemories(a, b)
    ensures a == b
    decreases |a|
  {
    hide TextLess;
    assert (a != [] ==> a[0] in a) && (b != [] ==> b[0] in b);
    if a != [] {
      LastIsLast(a, b);
      var n, k := |a| - 1, |b| - 1;
      FrontMembers(a);
      FrontMembers(b);
      forall m
        ensures m in a[..n] <==> m in b[..k]
      {
        assert m in a <==> m in b;
      }
      SortedUnique(a[..n], b[..k]);
      assert a == a[..n] + [a[n]] && b == b[..k] + [b[k]];
    }
  }

  lemma LastIsLast(a: seq<Memory>, b: seq<Memory>)
    requires a != [] && b != [] && TextSorted(a) && TextSorted(b) && SameMemories(a, b)
    ensures a[|a| - 1] == b[|b| - 1]
  {
    var x, y := a[|a| - 1], b[|b| - 1];
    assert x in a && y in b;
    TextLessTotal(x.path, y.path);
    hide TextLess;
    var i :| 0 <= i < |b| && b[i] == x;
    var j :| 0 <= j < |a| && a[j] == y;
  }

  lemma FrontMembers(a: seq<Memory>)
    requires a != [] && TextSorted(a)
    ensures TextSorted(a[..|a| - 1])
    ensures forall m :: m in a[..|a| - 1] <==> m in a && m != a[|a| - 1]
  {
    var n := |a| - 1;
    SortedIsDistinct(a);
    hide TextLess;
    assert forall k | 0 <= k < n :: a[..n][k] == a[k] && a[k] != a[n];
    assert a == a[..n] + [a[n]];
  }

  /** What is sorted in the one order is sorted in the other, if and only if no two are crossed. */
  lemma SortedBothWays(t: seq<Memory>)
    requires PathSorted(t)
    ensures TextSorted(t) <==> NoneCrossed(t)
  {
    hide PathLess, TextLess;
    if NoneCrossed(t) {
      forall a, b | 0 <= a < b < |t|
        ensures TextLess(t[a].path, t[b].path)
      {
        assert t[a] in t && t[b] in t && !Crossed(t[b].path, t[a].path);
        TextLessTotal(t[a].path, t[b].path);
        PathsDiffer(t[a].path, t[b].path);
      }
    }
    if TextSorted(t) {
      forall x, y | x in t && y in t
        ensures !Crossed(x.path, y.path)
      {
        var i :| 0 <= i < |t| && t[i] == x;
        var j :| 0 <= j < |t| && t[j] == y;
        TextLessTotal(x.path, y.path);
        PathsDiffer(x.path, y.path);
      }
    }
  }

  lemma PathsDiffer(p: string, q: string)
    ensures PathLess(p, q) ==> p != q && !PathLess(q, p)
  {
    PathLessIsSlashLess(p, q);
    PathLessIsSlashLess(q, p);
    SlashLessTotal(p, q);
  }

  /** Distinct memories. */
  ghost predicate NoRepeats(s: seq<Memory>) {
    forall a, b | 0 <= a < b < |s| :: s[a] != s[b]
  }

  lemma SortedIsDistinct(s: seq<Memory>)
    ensures TextSorted(s) ==> NoRepeats(s)
    ensures PathSorted(s) ==> NoRepeats(s)
  {
    hide TextLess, PathLess;
    forall a, b | 0 <= a < b < |s|
      ensures TextLess(s[a].path, s[b].path) ==> s[a] != s[b]
      ensures PathLess(s[a].path, s[b].path) ==> s[a] != s[b]
    {
      TextLessTotal(s[a].path, s[b].path);
      PathsDiffer(s[a].path, s[b].path);
    }
  }

  /** Cut off anywhere, the two hold the same memories. */
  ghost predicate SameUpTo(a: seq<Memory>, b: seq<Memory>, max: nat) {
    SameMemories(FirstOf(a, max), FirstOf(b, max))
  }

  lemma NextTells(a: seq<Memory>, b: seq<Memory>, k: nat)
    requires NoRepeats(a) && 0 < k <= |a| && k - 1 <= |b| && a[..k - 1] == b[..k - 1] && SameUpTo(a, b, k)
    ensures k <= |b| && a[..k] == b[..k]
  {
    var x := a[k - 1];
    assert FirstOf(a, k) == a[..k] && a[..k][k - 1] == x;
    assert x in FirstOf(a, k) && x in FirstOf(b, k);
    var j :| 0 <= j < |FirstOf(b, k)| && FirstOf(b, k)[j] == x;
    assert forall i | 0 <= i < k - 1 :: a[..k - 1][i] == a[i] && b[..k - 1][i] == b[i];
    assert j == k - 1;
  }

  lemma {:induction false} PrefixTells(a: seq<Memory>, b: seq<Memory>, k: nat)
    requires NoRepeats(a) && k <= |a| && forall max: nat | max > 0 :: SameUpTo(a, b, max)
    ensures k <= |b| && a[..k] == b[..k]
    decreases k
  {
    hide SameUpTo, NoRepeats;
    if k > 0 {
      PrefixTells(a, b, k - 1);
      assert SameUpTo(a, b, k);
      NextTells(a, b, k);
    }
  }

  lemma PrefixesTell(a: seq<Memory>, b: seq<Memory>)
    requires NoRepeats(a) && NoRepeats(b)
    ensures (forall max: nat | max > 0 :: SameUpTo(a, b, max)) <==> a == b
  {
    if forall max: nat | max > 0 :: SameUpTo(a, b, max) {
      PrefixTells(a, b, |a|);
      assert forall max: nat | max > 0 :: SameUpTo(b, a, max) by {
        forall max: nat | max > 0
          ensures SameUpTo(b, a, max)
        {
          assert SameUpTo(a, b, max);
        }
      }
      PrefixTells(b, a, |b|);
      assert a[..|a|] == a && b[..|b|] == b;
    }
  }

  lemma FreshOwnPaths(tools: Tools, o: Options, c: Corpus, rows: seq<IndexRow>)
    requires Discovered(c) && Buildable(tools, c) && Plain(tools, c) && FreshRows(tools, c, rows)
    ensures forall row | row in rows :: OwnPath(tools, o, c, row)
    ensures |rows| <= MAX_MEMORY_FILES
  {
    hide Wanted, Slashed, Indexed, FromRow, Written, PathLess, TextLess;
    RebuildWrites(tools, c, c.order);
    SameSize(rows, Indexed(tools, c, c.order));
    IndexedSize(tools, c, c.order);
    forall row | row in rows
      ensures OwnPath(tools, o, c, row)
    {
      FreshRowLeadsBack(tools, o, c, row.path);
    }
  }

  lemma FreshAreSorted(tools: Tools, o: Options, c: Corpus, rows: seq<IndexRow>)
    requires Discovered(c) && Buildable(tools, c) && Plain(tools, c) && FreshRows(tools, c, rows)
    ensures TextSorted(FromRows(tools, o, c, rows)) && PathSorted(FromFiles(tools, o, c, c.order))
  {
    hide FromRows, FromFiles, FromRow, Indexed, PathLess, TextLess, TextSorted, PathSorted, Wanted, Slashed;
    FreshOwnPaths(tools, o, c, rows);
    FromRowsSorted(tools, o, c, rows);
    FromFilesSorted(tools, o, c, c.order);
  }

  /** Right after a rebuild, with the memories unchanged: neither way of loading fails. Both load from the same memories,
      so that they load the same whenever no more are wanted than are asked for. They load the same for every maximum, and
      in the same order, if and only if no two wanted paths are put differently by the order of the index and that of
      discovery. */
  lemma FreshIndexAgrees(tools: Tools, o: Options, c: Corpus, rows: seq<IndexRow>)
    requires Discovered(c) && Buildable(tools, c) && Plain(tools, c) && FreshRows(tools, c, rows)
    ensures |c.order| <= MAX_MEMORY_FILES && forall max: nat, n: nat :: !Stumbles(tools, o, c, max, n)
    ensures forall max: nat :: !ScanFails(tools, o, c, rows, max)
    ensures var byIndex, byFiles := FromRows(tools, o, c, rows), FromFiles(tools, o, c, c.order);
            && SameMemories(byIndex, byFiles) && |byIndex| == |byFiles|
            && (forall max: nat | |byIndex| <= max :: SameUpTo(byIndex, byFiles, max))
            && (byIndex == byFiles <==> NoneCrossed(byFiles))
            && ((forall max: nat | max > 0 :: SameUpTo(byIndex, byFiles, max)) <==> NoneCrossed(byFiles))
  {
    hide FromRows, FromFiles, FromRow, Indexed, PathLess, TextLess, NoneCrossed, TextSorted, PathSorted, Wanted, Slashed, Crossed;
    var byIndex, byFiles := FromRows(tools, o, c, rows), FromFiles(tools, o, c, c.order);
    forall m
      ensures m in byIndex <==> m in byFiles
    {
      FreshMembers(tools, o, c, rows, m);
    }
    FreshOwnPaths(tools, o, c, rows);
    FreshAreSorted(tools, o, c, rows);
    SortedBothWays(byFiles);
    if TextSorted(byFiles) {
      SortedUnique(byIndex, byFiles);
    }
    SortedIsDistinct(byIndex);
    SortedIsDistinct(byFiles);
    SameLength(byIndex, byFiles);
    PrefixesTell(byIndex, byFiles);
    BuildableReads(tools, o, c);
  }

  lemma {:induction false} SameLength(a: seq<Memory>, b: seq<Memory>)
    requires NoRepeats(a) && NoRepeats(b) && SameMemories(a, b)
    ensures |a| == |b|
  {
    AsSet(a);
    AsSet(b);
    assert (set m | m in a) == (set m | m in b);
  }

  lemma {:induction false} AsSet(a: seq<Memory>)
    requires NoRepeats(a)
    ensures |set m | m in a| == |a|
    decreases |a|
  {
    if a != [] {
      var n := |a| - 1;
      AsSet(a[..n]);
      assert (set m | m in a) == (set m | m in a[..n]) + {a[n]};
      assert a[n] !in a[..n];
    }
  }

  lemma BuildableReads(tools: Tools, o: Options, c: Corpus)
    requires Discovered(c) && Buildable(tools, c) && Plain(tools, c)
    ensures |c.order| <= MAX_MEMORY_FILES && forall max: nat, n: nat :: !Stumbles(tools, o, c, max, n)
  {
    hide Wanted, Slashed, FromFiles, PathLess;
  }

  // ---------------------------------------------------------------------------------------------
  // Where the two ways differ
  // ---------------------------------------------------------------------------------------------

  lemma {:induction false} OrdersAt(front: string, c: char, d: char, x: string, y: string)
    ensures c < d ==> TextLess(front + [c] + x, front + [d] + y)
    ensures c == '/' && d != '/' ==> SlashLess(front + [c] + x, front + [d] + y)
    decreases |front|
  {
    var a, b := front + [c] + x, front + [d] + y;
    if front == "" {
      assert a[0] == c && b[0] == d;
    } else {
      OrdersAt(front[1..], c, d, x, y);
      assert a[1..] == front[1..] + [c] + x && b[1..] == front[1..] + [d] + y && a[0] == b[0];
    }
  }

  /** Two memories: one in a directory, one behind a hyphen. */
  function TwoFiles(front: string, x: string, y: string, d: Document, e: Document): Corpus {
    var p, q := front + "/" + x, front + "-" + y;
    Corpus([p, q], map[p := File(Some(d), false, false), q := File(Some(e), false, false)])
  }

  function TwoRows(tools: Tools, front: string, x: string, y: string, d: Document, e: Document): seq<IndexRow> {
    [IndexRow(e.front.id, front + "-" + y, tools.hash(e)), IndexRow(d.front.id, front + "/" + x, tools.hash(d))]
  }

  lemma HyphenCrosses(front: string, x: string, y: string)
    ensures Crossed(front + "-" + y, front + "/" + x)
  {
    OrdersAt(front, '-', '/', y, x);
    OrdersAt(front, '/', '-', x, y);
    PathLessIsSlashLess(front + "/" + x, front + "-" + y);
  }

  lemma TwoAreDiscovered(front: string, x: string, y: string, d: Document, e: Document)
    ensures Discovered(TwoFiles(front, x, y, d, e))
    ensures front + "/" + x != front + "-" + y
  {
    hide PathLess, TextLess;
    HyphenCrosses(front, x, y);
    assert (front + "/" + x)[|front|] == '/' && (front + "-" + y)[|front|] == '-';
  }

  lemma TwoAreBuildable(tools: Tools, front: string, x: string, y: string, d: Document, e: Document)
    requires tools.valid(d) && tools.valid(e) && d.front.id != e.front.id
    ensures Buildable(tools, TwoFiles(front, x, y, d, e))
  {
  }

  lemma TwoAreIndexed(tools: Tools, c: Corpus, p: string, q: string)
    requires p in c.files && c.files[p].document.Some? && c.files[p].document.value.front.sensitivity != SECRET
    requires q in c.files && c.files[q].document.Some? && c.files[q].document.value.front.sensitivity != SECRET
    ensures var d, e := c.files[p].document.value, c.files[q].document.value;
            Indexed(tools, c, [p, q]) == [IndexRow(d.front.id, p, tools.hash(d)), IndexRow(e.front.id, q, tools.hash(e))]
  {
    assert [p, q][..1] == [p] && [p][..0] == [];
    assert Indexed(tools, c, []) == [];
    assert |Indexed(tools, c, [p])| == 1;
  }

  lemma TwoFilesAreFresh(tools: Tools, front: string, x: string, y: string, d: Document, e: Document)
    requires tools.valid(d) && tools.valid(e) && d.front.id != e.front.id
    requires d.front.sensitivity != SECRET && e.front.sensitivity != SECRET
    ensures var c := TwoFiles(front, x, y, d, e);
            Discovered(c) && Buildable(tools, c) && FreshRows(tools, c, TwoRows(tools, front, x, y, d, e))
  {
    hide PathLess, TextLess, Indexed, Discovered, Buildable;
    TwoAreDiscovered(front, x, y, d, e);
    TwoAreBuildable(tools, front, x, y, d, e);
    HyphenCrosses(front, x, y);
    TwoAreIndexed(tools, TwoFiles(front, x, y, d, e), front + "/" + x, front + "-" + y);
  }

  /** With a directory `a/` beside a name that begins with `a-`, the index begins with the one and discovery with the
      other: already the first page of one memory differs. */
  lemma HyphenChangesThePage(tools: Tools, o: Options, front: string, x: string, y: string, d: Document, e: Document)
    requires tools.valid(d) && tools.valid(e) && d.front.id != e.front.id
    requires d.front.sensitivity == "public" && e.front.sensitivity == "public" && Plain(tools, TwoFiles(front, x, y, d, e))
    ensures var c, rows := TwoFiles(front, x, y, d, e), TwoRows(tools, front, x, y, d, e);
            && Discovered(c) && Buildable(tools, c) && FreshRows(tools, c, rows)
            && FromRows(tools, o, c, rows) == [Memory(front + "-" + y, e), Memory(front + "/" + x, d)]
            && FromFiles(tools, o, c, c.order) == [Memory(front + "/" + x, d), Memory(front + "-" + y, e)]
            && !SameUpTo(FromRows(tools, o, c, rows), FromFiles(tools, o, c, c.order), 1)
  {
    hide PathLess, TextLess, Slashed, FromRows, FromFiles, SameUpTo, Buildable, FreshRows;
    TwoFilesAreFresh(tools, front, x, y, d, e);
    var p, q := front + "/" + x, front + "-" + y;
    var c, rows := TwoFiles(front, x, y, d, e), TwoRows(tools, front, x, y, d, e);
    assert p[|front|] == '/' && q[|front|] == '-';
    FreshRowLeadsBack(tools, o, c, p);
    FreshRowLeadsBack(tools, o, c, q);
    TwoFromRows(tools, o, c, rows[0], rows[1]);
    TwoFromFiles(tools, o, c, p, q);
    OtherFirst(Memory(q, e), Memory(p, d));
  }

  lemma OtherFirst(a: Memory, b: Memory)
    ensures a != b ==> !SameUpTo([a, b], [b, a], 1)
  {
    assert FirstOf([a, b], 1) == [a] && FirstOf([b, a], 1) == [b];
    assert a in [a] && (a in [b] <==> a == b);
  }

  lemma TwoFromRows(tools: Tools, o: Options, c: Corpus, a: IndexRow, b: IndexRow)
    ensures FromRows(tools, o, c, [a, b]) == FromRow(tools, o, c, a) + FromRow(tools, o, c, b)
  {
    hide FromRow;
    assert [a, b][..1] == [a] && [a][..0] == [];
    assert FromRows(tools, o, c, [a]) == [] + FromRow(tools, o, c, a);
  }

  lemma TwoFromFiles(tools: Tools, o: Options, c: Corpus, p: string, q: string)
    requires p in c.files && q in c.files
    requires FromFile(tools, o, p, c.files[p]).Ok? && FromFile(tools, o, p, c.files[p]).value.Some?
    requires FromFile(tools, o, q, c.files[q]).Ok? && FromFile(tools, o, q, c.files[q]).value.Some?
    ensures FromFiles(tools, o, c, [p, q]) ==
            [FromFile(tools, o, p, c.files[p]).value.value, FromFile(tools, o, q, c.files[q]).value.value]
  {
    hide FromFile;
    assert [p, q][..1] == [p] && [p][..0] == [];
    assert FromFiles(tools, o, c, [p]) == [] + [FromFile(tools, o, p, c.files[p]).value.value];
  }
}
