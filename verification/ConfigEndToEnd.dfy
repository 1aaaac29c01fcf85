/** The section writers run concurrently: what every reachable state of the file system means for
    the configuration sections. */
module ConfigEndToEnd {
  import opened Wrappers
  import opened PyText
  import opened TomlScalar
  import L = TomlLine
  import opened SectionEdit
  import opened TextLens
  import opened AnyText
  import opened ConfigDoc
  import opened ConfigDecision
  import opened ConfigStore
  import opened ConfigSafety

  /** The two tests of a writer are those of the section setter. */
  ghost function Setter(schema: Schema): Policy<Edit> {
    Policy((e: Edit, main: Option<string>) => MainHolds(schema, e, main),
           (e: Edit, existing: Option<string>) => SetSection(schema, e, existing))
  }

  /** A complete configuration file within the size limit. */
  ghost predicate Whole(schema: Schema, text: string) {
    Bytes(text) <= MAX_CONFIG_BYTES && (Parse(schema, Main, text).Some? || Parse(schema, ReviewState, text).Some?)
  }

  lemma CandidateIsWhole(schema: Schema, e: Edit, existing: Option<string>)
    requires SetSection(schema, e, existing).Some?
    ensures Whole(schema, SetSection(schema, e, existing).value)
  {
    hide Parse, Bytes, ValidUpdate, Current, Meets, EditText, RenderedText;
    assert e.kind == Main || e.kind == ReviewState;
  }

  /** Whatever is interleaved, interrupted or crashes: a target is absent or a complete file that parses and fits. */
  lemma TargetsStayWhole(schema: Schema, init: Files, acts: seq<Act<Edit>>, s: Store<Edit>, path: Path)
    requires Reaches(Setter(schema), Fresh(init), acts, s)
    requires path in init ==> Whole(schema, init[path])
    ensures path in s.files ==> Whole(schema, s.files[path])
  {
    hide Parse, Bytes, Reaches, SetSection;
    forall e: Edit, existing: Option<string> | Setter(schema).candidate(e, existing).Some?
      ensures Whole(schema, Setter(schema).candidate(e, existing).value)
    {
      CandidateIsWhole(schema, e, existing);
    }
    var whole := (text: string) => Whole(schema, text);
    TargetsStayGood(Setter(schema), whole, init, acts, s, path);
    assert path in s.files ==> whole(s.files[path]);
  }

  /** At the moment an edit went on record its expectations held. The file that it replaced was absent, or was accepted, and
      had the expected table at the section; and the main configuration was absent, or was accepted within its limit, and had
      the expected table at the expected path. */
  lemma ExpectationsHeld(schema: Schema, init: Files, acts: seq<Act<Edit>>, s: Store<Edit>, k: nat)
    returns (before: Files, after: Files)
    requires Reaches(Setter(schema), Fresh(init), acts, s) && k < |s.log|
    ensures Replay(Setter(schema), init, s.log[..k]) == Some(before) && Replay(Setter(schema), init, s.log[..k + 1]) == Some(after)
    ensures var req := s.log[k].req;
            var existing, main := Content(before, req.path), Content(before, MainPath(req.path));
            && (existing.Some? ==> Parse(schema, req.edit.kind, existing.value).Some?)
            && (req.edit.expected.Some? ==>
                  if existing.Some? && req.edit.path in Parse(schema, req.edit.kind, existing.value).value
                  then Parse(schema, req.edit.kind, existing.value).value[req.edit.path] == req.edit.expected.value
                  else req.edit.expected.value == map[])
            && (req.edit.expectedMain.Some? ==>
                  var (path, table) := req.edit.expectedMain.value;
                  && (main.Some? ==> Bytes(main.value) <= 65536 && Parse(schema, Main, main.value).Some?)
                  && if main.Some? && path in Parse(schema, Main, main.value).value
                     then Parse(schema, Main, main.value).value[path] == table
                     else table == map[])
            && req.path in after && after - {req.path} == before - {req.path}
            && SetSection(schema, req.edit, existing) == Some(after[req.path])
  {
    hide Reaches, MainHolds, Replay, Parse, ValidUpdate, Meets, Bytes, EditText, RenderedText;
    before, after := CommitsMeetTheirExpectations(Setter(schema), init, acts, s, k);
    var req := s.log[k].req;
    if req.edit.expected.Some? {
      ExpectationExactly(schema, req.edit, Content(before, req.path));
    }
    MainExpectationExactly(schema, req.edit, Content(before, MainPath(req.path)));
  }

  /** Otherwise the writer is refused, at the step that looks: for the main configuration where it is checked, and for the
      section where its file is read. */
  lemma UnmetIsRefused(schema: Schema, files: Files, x: Txn<Edit>)
    ensures var e, main := x.req.edit, Content(files, MainPath(x.req.path));
            var met :=
              e.expectedMain.Some? ==>
                var (path, table) := e.expectedMain.value;
                && (main.Some? ==> Bytes(main.value) <= 65536 && Parse(schema, Main, main.value).Some?)
                && if main.Some? && path in Parse(schema, Main, main.value).value
                   then Parse(schema, Main, main.value).value[path] == table
                   else table == map[];
            Turned(Setter(schema), files, x, CheckMain).stage == if met then MainChecked else Refused
    ensures var e, existing := x.req.edit, Content(files, x.req.path);
            var met :=
              e.expected.Some? ==>
                && (existing.Some? ==> Parse(schema, e.kind, existing.value).Some?)
                && if existing.Some? && e.path in Parse(schema, e.kind, existing.value).value
                   then Parse(schema, e.kind, existing.value).value[e.path] == e.expected.value
                   else e.expected.value == map[];
            !met ==> Turned(Setter(schema), files, x, Read).stage == Refused
  {
    hide Parse, SetSection, MainHolds, Bytes;
    var e := x.req.edit;
    MainExpectationExactly(schema, e, Content(files, MainPath(x.req.path)));
    if e.expected.Some? {
      ExpectationExactly(schema, e, Content(files, x.req.path));
    }
  }

  // ---------------------------------------------------------------------------------------------
  // Sections
  // ---------------------------------------------------------------------------------------------

  /** The tables of one file after setting the recorded sections one after the other. */
  function Sections(doc: L.Doc, log: seq<Commit<Edit>>, path: Path): L.Doc {
    if log == [] then doc
    else
      var c := log[|log| - 1];
      var before := Sections(doc, log[..|log| - 1], path);
      if c.req.path == path then before[c.req.edit.path := TableOf(c.req.edit.values)] else before
  }

  /** The lines that the editor keeps of a file say all that the file says about the other tables. */
  ghost predicate KeepsOthers(existing: Option<string>, section: L.Path) {
    var doc, others := ReadText(existing), L.Fold(L.Unread, OtherLines(existing, section));
    doc.Some? && others.Some? && others.value.doc == doc.value - {section}
  }

  /** If the recorded edit `k` is of this file, that is so of the content that it replaced. */
  ghost predicate KeptAt(schema: Schema, init: Files, log: seq<Commit<Edit>>, path: Path, k: nat)
    requires k < |log|
  {
    match Replay(Setter(schema), init, log[..k])
    case None => false
    case Some(before) => log[k].req.path == path ==> KeepsOthers(Content(before, path), log[k].req.edit.path)
  }

  /** After `n` recorded edits the file's tables are the initial ones with the recorded sections set in order. */
  ghost predicate TablesAfter(schema: Schema, init: Files, log: seq<Commit<Edit>>, path: Path, n: nat)
    requires n <= |log| && ReadText(Content(init, path)).Some?
  {
    match Replay(Setter(schema), init, log[..n])
    case None => false
    case Some(files) => ReadText(Content(files, path)) == Some(Sections(ReadText(Content(init, path)).value, log[..n], path))
  }

  lemma OneCommit(schema: Schema, init: Files, log: seq<Commit<Edit>>, path: Path, k: nat)
    requires Sane(schema) && k < |log| && Replay(Setter(schema), init, log).Some?
    requires ReadText(Content(init, path)).Some? && TablesAfter(schema, init, log, path, k)
    ensures TablesAfter(schema, init, log, path, k + 1) <==> KeptAt(schema, init, log, path, k)
  {
    hide MainHolds, SetSection, ReadText, OtherLines, L.Fold, TableOf, Sane;
    ReplayPrefix(Setter(schema), init, log, k);
    ReplayPrefix(Setter(schema), init, log, k + 1);
    assert log[..k + 1][..k] == log[..k];
    var before := Replay(Setter(schema), init, log[..k]).value;
    var req := log[k].req;
    if req.path == path {
      SetSectionOnAnyText(schema, req.edit, Content(before, path));
    }
  }

  lemma {:induction false} AllKept(schema: Schema, init: Files, log: seq<Commit<Edit>>, path: Path, n: nat)
    requires Sane(schema) && n <= |log| && Replay(Setter(schema), init, log).Some? && ReadText(Content(init, path)).Some?
    ensures (forall m: nat | m <= n :: TablesAfter(schema, init, log, path, m)) <==>
              forall k: nat | k < n :: KeptAt(schema, init, log, path, k)
    decreases n
  {
    hide TablesAfter, KeptAt, ReadText, Sane, Replay;
    if n == 0 {
      NothingRecorded(schema, init, log, path);
    } else {
      AllKept(schema, init, log, path, n - 1);
      if forall m: nat | m <= n - 1 :: TablesAfter(schema, init, log, path, m) {
        OneCommit(schema, init, log, path, n - 1);
      }
    }
  }

  lemma NothingRecorded(schema: Schema, init: Files, log: seq<Commit<Edit>>, path: Path)
    requires ReadText(Content(init, path)).Some?
    ensures TablesAfter(schema, init, log, path, 0)
  {
    hide ReadText;
    assert log[..0] == [];
  }

  lemma {:induction false} UnreadableStays(schema: Schema, init: Files, log: seq<Commit<Edit>>, path: Path)
    requires Replay(Setter(schema), init, log).Some? && ReadText(Content(init, path)).None?
    ensures Content(Replay(Setter(schema), init, log).value, path) == Content(init, path)
    decreases |log|
  {
    hide MainHolds, Bytes, ValidUpdate, Meets, EditText, RenderedText, Checked, L.ReadDoc;
    if log != [] {
      UnreadableStays(schema, init, log[..|log| - 1], path);
    }
  }

  /** In every run, whatever is interleaved, interrupted or crashes, and with whatever values and line breaks: all the time the
      tables of a file are its initial tables with the recorded sections set in the order of the record, no writer's section
      lost, undone or mixed with another's, if and only if every recorded edit found a file whose kept lines say all there
      was about the other tables. A file that cannot be read is never changed. */
  lemma NoSectionLost(schema: Schema, init: Files, acts: seq<Act<Edit>>, s: Store<Edit>, path: Path)
    requires Sane(schema) && Reaches(Setter(schema), Fresh(init), acts, s)
    ensures Replay(Setter(schema), init, s.log) == Some(s.files)
    ensures ReadText(Content(init, path)).Some? ==>
              ((forall n: nat | n <= |s.log| :: TablesAfter(schema, init, s.log, path, n)) <==>
                 forall k: nat | k < |s.log| :: KeptAt(schema, init, s.log, path, k))
    ensures ReadText(Content(init, path)).None? ==> Content(s.files, path) == Content(init, path)
    ensures forall i | i in s.reports && s.reports[i] == Committed :: i in Writers(s.log)
    ensures forall i | i in s.reports && s.reports[i] == NotCommitted :: i !in Writers(s.log)
  {
    hide Reaches, Replay, ReadText, Sections, Sane, TablesAfter, KeptAt;
    NoLostUpdate(Setter(schema), init, acts, s);
    if ReadText(Content(init, path)).Some? {
      AllKept(schema, init, s.log, path, |s.log|);
    } else {
      UnreadableStays(schema, init, s.log, path);
    }
  }

  // ---------------------------------------------------------------------------------------------
  // Where that is always so
  // ---------------------------------------------------------------------------------------------

  /** Every recorded edit of the file has values without the line breaks that the printer leaves unescaped. */
  ghost predicate SafeLog(log: seq<Commit<Edit>>, path: Path) {
    forall k | 0 <= k < |log| && log[k].req.path == path :: SafeValues(log[k].req.edit.values)
  }

  lemma Published(schema: Schema, e: Edit, existing: Option<string>)
    requires Sane(schema) && SetSection(schema, e, existing).Some? && SafeValues(e.values)
    requires existing.Some? ==> LfOnly(existing.value)
    ensures var text := SetSection(schema, e, existing).value;
            && LfOnly(text) && ReadText(existing).Some?
            && ReadText(Some(text)) == Some(ReadText(existing).value[e.path := TableOf(e.values)])
  {
    hide LfOnly, SetSection, Checked, Current, Sane, ValidUpdate, AllReadable, EditText, L.ReadDoc, TableOf, Editable, SafeValues, Writable;
    var doc := SetSectionReads(schema, e, existing);
    assert Clean(e.path, e.values);
    EditTextSplits(existing, e.path, e.values);
  }

  lemma {:induction false} ReplaySections(schema: Schema, init: Files, log: seq<Commit<Edit>>, path: Path)
    requires Sane(schema) && Replay(Setter(schema), init, log).Some? && SafeLog(log, path)
    requires path in init ==> LfOnly(init[path])
    requires ReadText(Content(init, path)).Some?
    ensures var files := Replay(Setter(schema), init, log).value;
            && (path in files ==> LfOnly(files[path]))
            && ReadText(Content(files, path)) == Some(Sections(ReadText(Content(init, path)).value, log, path))
    decreases |log|
  {
    hide LfOnly, SetSection, MainHolds, Sane, ReadText, TableOf, SafeValues;
    if log != [] {
      ReplaySections(schema, init, log[..|log| - 1], path);
      var req := log[|log| - 1].req;
      var before := Replay(Setter(schema), init, log[..|log| - 1]).value;
      if req.path == path {
        Published(schema, req.edit, Content(before, path));
      }
    }
  }

  /** A file with line feeds only, edited with values without the other line breaks, keeps every section. */
  lemma SafeValuesLoseNothing(schema: Schema, init: Files, acts: seq<Act<Edit>>, s: Store<Edit>, path: Path)
    requires Sane(schema) && Reaches(Setter(schema), Fresh(init), acts, s) && SafeLog(s.log, path)
    requires path in init ==> LfOnly(init[path])
    requires ReadText(Content(init, path)).Some?
    ensures ReadText(Content(s.files, path)) == Some(Sections(ReadText(Content(init, path)).value, s.log, path))
  {
    hide Reaches, Replay, LfOnly, ReadText, Sections, SafeLog, Sane;
    NoLostUpdate(Setter(schema), init, acts, s);
    ReplaySections(schema, init, s.log, path);
  }

  /** From one content of a file to the next a section is set, and exactly it if and only if the lines that the editor
      keeps say all there was about the other tables. */
  ghost predicate SetsExactly(path: L.Path, values: Values, existing: Option<string>, new': string) {
    var doc, others := ReadText(existing), L.Fold(L.Unread, OtherLines(existing, path));
    && doc.Some? && others.Some?
    && ReadText(Some(new')) == Some(others.value.doc[path := TableOf(values)])
    && (ReadText(Some(new')) == Some(doc.value[path := TableOf(values)]) <==> others.value.doc == doc.value - {path})
  }

  /** Without any assumption about values or line breaks: what a recorded edit made of the file that it replaced. */
  lemma CommitSetsExactly(schema: Schema, init: Files, acts: seq<Act<Edit>>, s: Store<Edit>, k: nat)
    returns (before: Files, after: Files)
    requires Sane(schema) && Reaches(Setter(schema), Fresh(init), acts, s) && k < |s.log|
    ensures Replay(Setter(schema), init, s.log[..k]) == Some(before) && Replay(Setter(schema), init, s.log[..k + 1]) == Some(after)
    ensures var req := s.log[k].req;
            && req.path in after && after - {req.path} == before - {req.path}
            && SetsExactly(req.edit.path, req.edit.values, Content(before, req.path), after[req.path])
  {
    hide Reaches, MainHolds, Replay, Parse, Current, Meets, SetSection, ReadText, OtherLines, L.Fold, TableOf, Sane;
    before, after := ExpectationsHeld(schema, init, acts, s, k);
    var req := s.log[k].req;
    SetSectionOnAnyText(schema, req.edit, Content(before, req.path));
  }
}
