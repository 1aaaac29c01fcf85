/** Which memories are loaded for the graph, in terms of the files alone. */
module GraphChoice {
  import opened Wrappers
  import opened MemoryCorpus
  import opened IndexRebuild
  import opened GraphIndex
  import GraphPaging
  import opened GraphDelivery

  /** Public memories always, internal ones unless only public ones are asked for, and any other only if sensitive ones are
      included and not only public ones asked for. */
  predicate MayBeSeen(o: Options, sensitivity: string) {
    || sensitivity == "public"
    || (sensitivity == "internal" && !o.publicOnly)
    || (o.includeSensitive && !o.publicOnly)
  }

  /** The file holds this valid document, no link leads to it, and the secret scan has nothing against it. */
  predicate IsSound(tools: Tools, c: Corpus, m: Memory) {
    && m.path in c.files
    && c.files[m.path].document == Some(m.document) && tools.valid(m.document)
    && !c.files[m.path].linked && !c.files[m.path].flagged
  }

  lemma WantedExactly(o: Options, sensitivity: string)
    ensures Wanted(o, sensitivity) <==> MayBeSeen(o, sensitivity)
  {
  }

  /** From the files come exactly the sound memories of an allowed sensitivity whose content is not prohibited. */
  lemma FilesExactly(tools: Tools, o: Options, c: Corpus, m: Memory)
    requires Discovered(c)
    ensures m in FromFiles(tools, o, c, c.order) <==>
              && IsSound(tools, c, m) && m.document.front.sensitivity != "secret-prohibited"
              && MayBeSeen(o, m.document.front.sensitivity)
  {
    hide Wanted, FromFiles, PathLess, MayBeSeen;
    InFromFiles(tools, o, c, c.order, m);
    WantedExactly(o, m.document.front.sensitivity);
  }

  /** Backslashes count as slashes. */
  lemma {:induction false} SlashedAt(path: string)
    ensures |Slashed(path)| == |path|
    ensures forall k | 0 <= k < |path| :: Slashed(path)[k] == if path[k] == '\\' then '/' else path[k]
  {
    if path != "" {
      SlashedAt(path[1..]);
      assert forall k | 0 < k < |path| :: path[1..][k - 1] == path[k];
    }
  }

  /** From the index come exactly the sound memories of an allowed sensitivity that a row names by their path, with the
      identifier and the hash of the document as it is. */
  lemma RowsExactly(tools: Tools, o: Options, c: Corpus, rows: seq<IndexRow>, m: Memory)
    ensures m in FromRows(tools, o, c, rows) <==>
              && IsSound(tools, c, m) && MayBeSeen(o, m.document.front.sensitivity)
              && exists row :: row in rows && Slashed(row.path) == m.path == tools.normal(m.path)
                               && row.id == m.document.front.id && row.hash == tools.hash(m.document)
  {
    hide Wanted, FromRows, Slashed, MayBeSeen;
    InFromRows(tools, o, c, rows, m);
    WantedExactly(o, m.document.front.sensitivity);
    forall row
      ensures FromRow(tools, o, c, row) == [m] <==>
                && IsSound(tools, c, m) && MayBeSeen(o, m.document.front.sensitivity)
                && Slashed(row.path) == m.path == tools.normal(m.path)
                && row.id == m.document.front.id && row.hash == tools.hash(m.document)
    {
      OneRowExactly(tools, o, c, row, m);
    }
  }

  lemma OneRowExactly(tools: Tools, o: Options, c: Corpus, row: IndexRow, m: Memory)
    ensures FromRow(tools, o, c, row) == [m] <==>
              && IsSound(tools, c, m) && MayBeSeen(o, m.document.front.sensitivity)
              && Slashed(row.path) == m.path == tools.normal(m.path)
              && row.id == m.document.front.id && row.hash == tools.hash(m.document)
  {
    hide Wanted, Slashed, MayBeSeen;
    WantedExactly(o, m.document.front.sensitivity);
  }

  lemma FirstAre(all: seq<Memory>, max: nat)
    ensures |FirstOf(all, max)| <= max && (forall m | m in FirstOf(all, max) :: m in all)
    ensures |FirstOf(all, max)| < max ==> forall m | m in all :: m in FirstOf(all, max)
  {
  }

  /** What the two loaders deliver: only sound memories of an allowed sensitivity, no more than asked for; and if fewer, then
      every such memory of the files, and every one that a row names as it is. */
  lemma LoadedExactly(tools: Tools, o: Options, c: Corpus, rows: seq<IndexRow>, max: nat)
    requires Discovered(c)
    ensures var loaded := FirstOf(FromFiles(tools, o, c, c.order), max);
            && |loaded| <= max
            && (forall m | m in loaded ::
                  && IsSound(tools, c, m) && MayBeSeen(o, m.document.front.sensitivity)
                  && m.document.front.sensitivity != "secret-prohibited")
            && (|loaded| < max ==>
                  forall m | IsSound(tools, c, m) && MayBeSeen(o, m.document.front.sensitivity)
                             && m.document.front.sensitivity != "secret-prohibited" :: m in loaded)
    ensures var loaded := FirstOf(FromRows(tools, o, c, rows), max);
            && |loaded| <= max
            && (forall m | m in loaded :: IsSound(tools, c, m) && MayBeSeen(o, m.document.front.sensitivity))
            && (|loaded| < max ==>
                  forall m, row | row in rows && IsSound(tools, c, m) && MayBeSeen(o, m.document.front.sensitivity)
                                  && Slashed(row.path) == m.path == tools.normal(m.path)
                                  && row.id == m.document.front.id && row.hash == tools.hash(m.document) :: m in loaded)
  {
    hide FromFiles, FromRows, IsSound, MayBeSeen, PathLess, FirstOf, Slashed;
    FirstAre(FromFiles(tools, o, c, c.order), max);
    FirstAre(FromRows(tools, o, c, rows), max);
    forall m
      ensures m in FromFiles(tools, o, c, c.order) <==>
                && IsSound(tools, c, m) && m.document.front.sensitivity != "secret-prohibited"
                && MayBeSeen(o, m.document.front.sensitivity)
    {
      FilesExactly(tools, o, c, m);
    }
    forall m
      ensures m in FromRows(tools, o, c, rows) <==>
                && IsSound(tools, c, m) && MayBeSeen(o, m.document.front.sensitivity)
                && exists row :: row in rows && Slashed(row.path) == m.path == tools.normal(m.path)
                                 && row.id == m.document.front.id && row.hash == tools.hash(m.document)
    {
      RowsExactly(tools, o, c, rows, m);
    }
  }

  /** So no page ever shows a memory that it should not: what is on it comes from a sound file of an allowed sensitivity. And
      if there are more such memories than the page has places, the next offset says so. */
  lemma PageShowsExactly(q: Request, v: Vault, limit: nat, offset: nat)
    requires Discovered(v.files) && limit >= 1
    ensures var (page, next) := GraphPaging.PageAt(Shown(q, Loadable(q, v)), limit, offset);
            && (forall x | x in page :: exists m :: x == q.shown(m) && IsSound(q.loading, v.files, m)
                                                   && MayBeSeen(q.options, m.document.front.sensitivity))
            && (next.None? && offset == 0 && !(q.preferIndex && v.index.Some?) ==>
                  forall m | IsSound(q.loading, v.files, m) && MayBeSeen(q.options, m.document.front.sensitivity)
                             && m.document.front.sensitivity != "secret-prohibited" :: q.shown(m) in page)
  {
    hide FromFiles, FromRows, IsSound, MayBeSeen, PathLess;
    var all := Loadable(q, v);
    var (page, next) := GraphPaging.PageAt(Shown(q, all), limit, offset);
    forall m
      ensures m in all ==> IsSound(q.loading, v.files, m) && MayBeSeen(q.options, m.document.front.sensitivity)
      ensures (!(q.preferIndex && v.index.Some?) && IsSound(q.loading, v.files, m) && MayBeSeen(q.options, m.document.front.sensitivity)
               && m.document.front.sensitivity != "secret-prohibited") ==> m in all
    {
      FilesExactly(q.loading, q.options, v.files, m);
      if q.preferIndex && v.index.Some? {
        RowsExactly(q.loading, q.options, v.files, v.index.value, m);
      }
    }
    forall x | x in page
      ensures exists m :: m in all && x == q.shown(m)
    {
      var k :| 0 <= k < |page| && page[k] == x;
      assert x == Shown(q, all)[offset + k] && all[offset + k] in all;
    }
    if next.None? && offset == 0 {
      assert page == Shown(q, all);
      forall m | m in all
        ensures q.shown(m) in page
      {
        var k :| 0 <= k < |all| && all[k] == m;
        assert page[k] == q.shown(m);
      }
    }
  }
}
