/** Setting a section of a schema-checked configuration file: the decision and its effect. */
module ConfigDoc {
  import opened Wrappers
  import opened PyText
  import opened TomlScalar
  import opened TomlLine
  import opened SectionEdit
  import opened SectionLens
  import opened TextLens
  import opened LensLaws
  import opened AnyText

  const MAX_CONFIG_BYTES := 64 * 1024

  // ---------------------------------------------------------------------------------------------
  // Structure
  // ---------------------------------------------------------------------------------------------

  datatype FieldType = TBool | TInt | TNumber | TString | TStringList

  type Fields = map<string, FieldType>

  /** The tables of known sections, providers and review records; `idPrefix` starts a namespace's record ids. */
  datatype Schema = Schema(sections: map<string, Fields>, provider: Fields, providers: set<string>,
                           review: map<string, Fields>, idPrefix: map<string, string>)

  datatype Kind = Main | ReviewState

  ghost predicate BareFields(fields: Fields) {
    forall key | key in fields :: IsBareKey(key)
  }

  /** All names are bare keys, no section is called like the table of providers, and every namespace has ids. */
  ghost predicate Sane(schema: Schema) {
    && "providers" !in schema.sections
    && (forall s | s in schema.sections :: IsBareKey(s) && BareFields(schema.sections[s]))
    && BareFields(schema.provider) && (forall p | p in schema.providers :: IsBareKey(p))
    && (forall n | n in schema.review :: IsBareKey(n) && BareFields(schema.review[n]) && n in schema.idPrefix)
    && (forall n | n in schema.idPrefix :: IsBareKey(schema.idPrefix[n]))
  }

  predicate MatchesType(v: Value, t: FieldType) {
    match t
    case TBool => v.Bool?
    case TInt => v.Int?
    case TNumber => v.Int? || v.Float?
    case TString => v.Str?
    case TStringList => v.List?
  }

  ghost predicate FieldsMatch(table: Table, fields: Fields) {
    forall key | key in table :: key in fields && MatchesType(table[key], fields[key])
  }

  predicate IsHex(c: char) {
    IsDigit(c) || 'a' <= c <= 'f'
  }

  /** A namespace's prefix and sixteen hexadecimal digits. */
  predicate IsRecordId(schema: Schema, namespace: string, id: string) {
    && namespace in schema.idPrefix
    && var prefix := schema.idPrefix[namespace];
    && |id| == |prefix| + 16 && id[..|prefix|] == prefix
    && forall k | |prefix| <= k < |id| :: IsHex(id[k])
  }

  /** The fields of a section that may be written. */
  function FieldsOf(schema: Schema, kind: Kind, path: Path): Option<Fields> {
    match kind
    case Main =>
      if |path| == 1 && path[0] in schema.sections then Some(schema.sections[path[0]])
      else if |path| == 2 && path[0] == "providers" && path[1] in schema.providers then Some(schema.provider)
      else None
    case ReviewState =>
      if |path| == 2 && path[0] in schema.review && IsRecordId(schema, path[0], path[1]) then Some(schema.review[path[0]])
      else None
  }

  /** The bare table around the providers or the records of a namespace, which may appear but only empty. */
  predicate IsMarker(schema: Schema, kind: Kind, path: Path) {
    |path| == 1 && match kind
    case Main => path[0] == "providers"
    case ReviewState => path[0] in schema.review
  }

  ghost predicate Allowed(schema: Schema, kind: Kind, path: Path, table: Table) {
    || (IsMarker(schema, kind, path) && table == map[])
    || (FieldsOf(schema, kind, path).Some? && FieldsMatch(table, FieldsOf(schema, kind, path).value))
  }

  /** What is left out of the parsed configuration: a namespace of records always, the table of providers
      as soon as it has a member. */
  ghost predicate Shown(schema: Schema, kind: Kind, doc: Doc, path: Path) {
    IsMarker(schema, kind, path) ==> kind == Main && forall q | q in doc :: |q| == 2 ==> q[0] != "providers"
  }

  ghost function Checked(schema: Schema, kind: Kind, doc: Doc): Option<Doc> {
    if forall p | p in doc :: Allowed(schema, kind, p, doc[p]) then Some(map p | p in doc && Shown(schema, kind, doc, p) :: doc[p])
    else None
  }

  ghost function Parse(schema: Schema, kind: Kind, text: string): Option<Doc> {
    match ReadDoc(text)
    case None => None
    case Some(doc) => Checked(schema, kind, doc)
  }

  /** Under a schema no key ever names a table: what the line grammar and the schema accept, TOML accepts. */
  lemma CheckedNeverClashes(schema: Schema, kind: Kind, doc: Doc)
    requires Sane(schema) && Checked(schema, kind, doc).Some?
    ensures !Clashes(doc)
  {
    forall p, q, key | p in doc && q in doc && key in doc[p]
      ensures !Names(p, key, q)
    {
      assert Allowed(schema, kind, p, doc[p]) && Allowed(schema, kind, q, doc[q]);
      NamesBelow(p, key, q);
    }
  }

  // ---------------------------------------------------------------------------------------------
  // The decision
  // ---------------------------------------------------------------------------------------------

  predicate WellTyped(values: Values) {
    DistinctKeys(values) && forall k | 0 <= k < |values| :: Printable(values[k].1)
  }

  /** A dictionary: each key once, every float given by its own printed form. */
  type Dict = v: Values | WellTyped(v) witness []

  /** A request to set one section. The expectations are those of `expected_section` and `expected_main_section`. */
  datatype Edit = Edit(kind: Kind, path: Path, values: Dict, expected: Option<Table>, expectedMain: Option<(Path, Table)>)

  ghost predicate ValidUpdate(schema: Schema, e: Edit) {
    FieldsOf(schema, e.kind, e.path).Some? && FieldsMatch(TableOf(e.values), FieldsOf(schema, e.kind, e.path).value)
  }

  ghost function RenderedText(path: Path, values: Values): string {
    Join(Rendered(path, values)) + "\n"
  }

  function Section(config: Doc, path: Path): Table {
    if path in config then config[path] else map[]
  }

  /** The parsed current configuration, unless the file is too large, does not parse,
      or spells the header in a way that cannot be edited. */
  ghost function Current(schema: Schema, e: Edit, existing: Option<string>): Option<Doc> {
    match existing
    case None => Some(map[])
    case Some(text) =>
      if Bytes(text) > MAX_CONFIG_BYTES || Parse(schema, e.kind, text).None? || Rejects(Splitlines(text), e.path) then None
      else Parse(schema, e.kind, text)
  }

  ghost predicate Meets(config: Doc, e: Edit) {
    e.expected.Some? ==> Section(config, e.path) == e.expected.value
  }

  /** The complete new text of the file, or none when the edit is refused. */
  ghost function SetSection(schema: Schema, e: Edit, existing: Option<string>): Option<string> {
    if !ValidUpdate(schema, e) || Parse(schema, e.kind, RenderedText(e.path, e.values)).None? then None
    else match Current(schema, e, existing)
      case None => None
      case Some(config) =>
        if !Meets(config, e) then None
        else
          var candidate := EditText(existing, e.path, e.values);
          if Parse(schema, e.kind, candidate).None? || Bytes(candidate) > MAX_CONFIG_BYTES then None else Some(candidate)
  }

  /** The expectation of the main configuration, which must parse if it is there. */
  ghost predicate MainHolds(schema: Schema, e: Edit, main: Option<string>) {
    match e.expectedMain
    case None => true
    case Some((path, table)) =>
      match main
      case None => table == map[]
      case Some(text) =>
        && Bytes(text) <= MAX_CONFIG_BYTES
        && Parse(schema, Main, text).Some? && Section(Parse(schema, Main, text).value, path) == table
  }

  // ---------------------------------------------------------------------------------------------
  // The rendered section on its own
  // ---------------------------------------------------------------------------------------------

  lemma RecordIdBare(schema: Schema, namespace: string, id: string)
    requires Sane(schema) && IsRecordId(schema, namespace, id)
    ensures IsBareKey(id)
  {
    var prefix := schema.idPrefix[namespace];
    forall k | 0 <= k < |id|
      ensures IsBareChar(id[k])
    {
      if k < |prefix| {
        assert id[..|prefix|][k] == id[k];
      }
    }
  }

  /** A section that may be written has a bare path and bare field names. */
  lemma WritableIsBare(schema: Schema, kind: Kind, path: Path)
    requires Sane(schema) && FieldsOf(schema, kind, path).Some?
    ensures BarePath(path) && BareFields(FieldsOf(schema, kind, path).value) && !IsMarker(schema, kind, path)
  {
    if kind == ReviewState {
      RecordIdBare(schema, path[0], path[1]);
    } else if |path| == 2 {
      assert IsBareKey("providers");
    }
  }

  lemma {:induction false} KeysBare(values: Values, fields: Fields)
    requires BareFields(fields) && FieldsMatch(TableOf(values), fields) && DistinctKeys(values)
    ensures forall k | 0 <= k < |values| :: IsBareKey(values[k].0)
  {
    forall k | 0 <= k < |values|
      ensures IsBareKey(values[k].0)
    {
      TableKeys(values, values[k].0);
    }
  }

  predicate AllReadable(values: Values) {
    forall k | 0 <= k < |values| :: Readable(values[k].1)
  }

  lemma ValidIsWritable(schema: Schema, e: Edit)
    requires Sane(schema) && ValidUpdate(schema, e)
    ensures BarePath(e.path) && forall k | 0 <= k < |e.values| :: IsBareKey(e.values[k].0)
    ensures Writable(e.path, e.values) <==> AllReadable(e.values)
  {
    WritableIsBare(schema, e.kind, e.path);
    KeysBare(e.values, FieldsOf(schema, e.kind, e.path).value);
  }

  lemma {:induction false} PairLinesAt(values: Values, k: nat)
    requires k < |values|
    ensures |PairLines(values)| == |values| && PairLines(values)[k] == PairLine(values[k].0, values[k].1)
    decreases |values|
  {
    hide PairLine;
    var n := |values| - 1;
    if n > 0 {
      PairLinesAt(values[..n], if k < n then k else 0);
    }
  }

  lemma RenderedLines(path: Path, values: Values)
    requires BarePath(path) && forall k | 0 <= k < |values| :: IsBareKey(values[k].0) && Printable(values[k].1)
    ensures TomlLines(RenderedText(path, values)) == Rendered(path, values) + [""]
  {
    CanonicalShape(path);
    PairsOneLine(values);
    assert OneLine(Canonical(path));
    hide Canonical, OneLine, PairLines, IsBareKey, BarePath;
    TomlLinesOfJoin(Rendered(path, values));
  }

  lemma ReadableRenders(schema: Schema, e: Edit)
    requires Sane(schema) && ValidUpdate(schema, e) && AllReadable(e.values)
    ensures Parse(schema, e.kind, RenderedText(e.path, e.values)).Some?
  {
    ValidIsWritable(schema, e);
    WritableIsBare(schema, e.kind, e.path);
    RenderedLines(e.path, e.values);
    FoldRendered(Unread, e.path, e.values);
    BlankReads();
    hide ReadLine, Rendered, BarePath, TableOf, FieldsOf, FieldsMatch, IsMarker, Shown, Fold, TomlLines, RenderedText;
    FoldAppend(Unread, Rendered(e.path, e.values), [""]);
    var r := Reading(map[e.path := TableOf(e.values)], Some(e.path));
    assert Unread.doc[e.path := TableOf(e.values)] == r.doc;
    BlankFolds(r);
  }

  lemma BlankFolds(r: Reading)
    ensures Fold(r, [""]) == Some(r)
  {
    BlankReads();
  }

  lemma UnreadableFails(schema: Schema, e: Edit)
    requires Sane(schema) && ValidUpdate(schema, e) && !AllReadable(e.values)
    ensures ReadDoc(RenderedText(e.path, e.values)).None?
  {
    hide Sane, ValidUpdate, Readable, TomlLines, Rendered, RenderedText, Fold, BarePath, IsBareKey, Printable;
    ValidIsWritable(schema, e);
    RenderedLines(e.path, e.values);
    var k :| 0 <= k < |e.values| && !Readable(e.values[k].1);
    UnreadablePair(e.path, e.values, k);
  }

  lemma UnreadablePair(path: Path, values: Dict, k: nat)
    requires k < |values| && IsBareKey(values[k].0) && !Readable(values[k].1)
    ensures Fold(Unread, Rendered(path, values) + [""]).None?
  {
    hide IsBareKey, Readable, Printable, ReadLine, Fold, PairLines, PairLine, Canonical, DistinctKeys;
    PairLinesAt(values, k);
    PairReads(values[k].0, values[k].1);
    var lines := Rendered(path, values) + [""];
    assert lines[k + 1] == PairLine(values[k].0, values[k].1);
    hide Rendered;
    if Fold(Unread, lines).Some? {
      FoldAccepts(Unread, lines, k + 1);
    }
  }

  /** The check of the rendered section alone refuses exactly the values that would not read back. */
  lemma RenderedParses(schema: Schema, e: Edit)
    requires Sane(schema) && ValidUpdate(schema, e)
    ensures Parse(schema, e.kind, RenderedText(e.path, e.values)).Some? <==> AllReadable(e.values)
  {
    hide ReadDoc, ValidUpdate;
    if AllReadable(e.values) {
      ReadableRenders(schema, e);
    } else {
      UnreadableFails(schema, e);
    }
  }

  // ---------------------------------------------------------------------------------------------
  // The decision and its effect
  // ---------------------------------------------------------------------------------------------

  /** The document behind an existing file, or no tables at all. */
  ghost predicate Standing(schema: Schema, e: Edit, existing: Option<string>, doc: Doc) {
    ReadText(existing) == Some(doc) && Checked(schema, e.kind, doc) == Current(schema, e, existing)
  }

  lemma CurrentIsEditable(schema: Schema, e: Edit, existing: Option<string>) returns (doc: Doc)
    requires existing.Some? ==> LfOnly(existing.value)
    requires Current(schema, e, existing).Some?
    ensures Standing(schema, e, existing, doc) && Editable(existing, e.path)
  {
    hide ReadDoc, LfOnly, Rejects, Bytes, Shown;
    doc := ReadText(existing).value;
    if existing == None {
      assert !Rejects(Existing(existing), e.path) by { NothingRejects(e.path); }
    }
  }

  lemma NothingRejects(path: Path)
    ensures !Rejects([], path)
  {
  }

  lemma CheckedSet(schema: Schema, e: Edit, doc: Doc)
    requires Sane(schema) && ValidUpdate(schema, e) && Checked(schema, e.kind, doc).Some?
    ensures Checked(schema, e.kind, doc[e.path := TableOf(e.values)]).Some?
  {
    hide TableOf, FieldsOf, FieldsMatch, IsMarker, Shown;
  }

  /** An edit is refused for a stated reason only: its own values, the file as it stands, an expectation
      that does not hold, or the size of the result; the result itself always parses. */
  lemma SetSectionExact(schema: Schema, e: Edit, existing: Option<string>)
    requires Sane(schema) && (existing.Some? ==> LfOnly(existing.value))
    ensures SetSection(schema, e, existing).Some? <==>
              && ValidUpdate(schema, e) && AllReadable(e.values)
              && Current(schema, e, existing).Some? && Meets(Current(schema, e, existing).value, e)
              && Bytes(EditText(existing, e.path, e.values)) <= MAX_CONFIG_BYTES
  {
    hide ReadDoc, LfOnly, Bytes, Shown, ValidUpdate, Current, Meets, Checked, EditText, AllReadable, Sane, RenderedText;
    if ValidUpdate(schema, e) {
      RenderedParses(schema, e);
      if AllReadable(e.values) && Current(schema, e, existing).Some? {
        var doc := CurrentIsEditable(schema, e, existing);
        ValidIsWritable(schema, e);
        EditTextSets(existing, e.path, e.values);
        CheckedSet(schema, e, doc);
      }
    }
  }

  const PROVIDERS: Path := ["providers"]

  /** A successful edit: the section is exactly the new values and every other section is what it was,
      except that the empty table of providers disappears from the parsed configuration when a provider is set. */
  lemma SetSectionSets(schema: Schema, e: Edit, existing: Option<string>)
    requires Sane(schema) && (existing.Some? ==> LfOnly(existing.value)) && SetSection(schema, e, existing).Some?
    ensures var before := Current(schema, e, existing).value;
            var after := Parse(schema, e.kind, SetSection(schema, e, existing).value);
            && after.Some? && e.path in after.value && after.value[e.path] == TableOf(e.values)
            && after.value - {e.path, PROVIDERS} == before - {e.path, PROVIDERS}
            && (PROVIDERS in after.value <==> PROVIDERS in before && !(e.kind == Main && e.path[0] == "providers"))
  {
    SetSectionExact(schema, e, existing);
    ValidIsWritable(schema, e);
    var doc := SetSectionReads(schema, e, existing);
    CheckedSets(schema, e, doc);
  }

  lemma SetSectionReads(schema: Schema, e: Edit, existing: Option<string>) returns (doc: Doc)
    requires Sane(schema) && (existing.Some? ==> LfOnly(existing.value)) && SetSection(schema, e, existing).Some?
    ensures Standing(schema, e, existing, doc) && Checked(schema, e.kind, doc).Some?
    ensures SetSection(schema, e, existing) == Some(EditText(existing, e.path, e.values)) && Editable(existing, e.path)
    ensures ValidUpdate(schema, e) && AllReadable(e.values) && Writable(e.path, e.values)
    ensures ReadDoc(SetSection(schema, e, existing).value) == Some(doc[e.path := TableOf(e.values)])
  {
    hide ReadDoc, LfOnly, Bytes, Shown, ValidUpdate, Current, Meets, Checked, EditText, AllReadable, Sane, RenderedText;
    SetSectionExact(schema, e, existing);
    doc := CurrentIsEditable(schema, e, existing);
    ValidIsWritable(schema, e);
    EditTextSets(existing, e.path, e.values);
  }

  lemma CheckedAt(schema: Schema, kind: Kind, doc: Doc, q: Path)
    requires Checked(schema, kind, doc).Some?
    ensures var config := Checked(schema, kind, doc).value;
            && (q in config <==> q in doc && Shown(schema, kind, doc, q))
            && (q in config ==> config[q] == doc[q])
  {
    hide Allowed, Shown;
  }

  lemma CheckedSets(schema: Schema, e: Edit, doc: Doc)
    requires Sane(schema) && ValidUpdate(schema, e) && Checked(schema, e.kind, doc).Some?
    ensures var before := Checked(schema, e.kind, doc).value;
            var after := Checked(schema, e.kind, doc[e.path := TableOf(e.values)]);
            && after.Some? && e.path in after.value && after.value[e.path] == TableOf(e.values)
            && after.value - {e.path, PROVIDERS} == before - {e.path, PROVIDERS}
            && (PROVIDERS in after.value <==> PROVIDERS in before && !(e.kind == Main && e.path[0] == "providers"))
  {
    CheckedSet(schema, e, doc);
    WritableIsBare(schema, e.kind, e.path);
    ProvidersUnwritable(schema, e);
    ShownSet(schema, e, doc);
    hide TableOf, FieldsOf, FieldsMatch, Shown, IsMarker, Allowed, Checked, BarePath, Sane, ValidUpdate;
    var to := doc[e.path := TableOf(e.values)];
    CheckedAt(schema, e.kind, doc, PROVIDERS);
    CheckedAt(schema, e.kind, to, PROVIDERS);
    CheckedAt(schema, e.kind, to, e.path);
    CheckedElsewhere(schema, e.kind, doc, to, {e.path, PROVIDERS});
  }

  lemma CheckedElsewhere(schema: Schema, kind: Kind, a: Doc, b: Doc, touched: set<Path>)
    requires Checked(schema, kind, a).Some? && Checked(schema, kind, b).Some?
    requires forall q | q !in touched :: (q in a <==> q in b) && (q in a ==> a[q] == b[q])
    requires forall q | q !in touched :: Shown(schema, kind, a, q) == Shown(schema, kind, b, q)
    ensures Checked(schema, kind, b).value - touched == Checked(schema, kind, a).value - touched
  {
    hide Shown, Allowed, Checked;
    forall q | q !in touched
      ensures var x, y := Checked(schema, kind, a).value, Checked(schema, kind, b).value;
              (q in x <==> q in y) && (q in x ==> x[q] == y[q])
    {
      CheckedAt(schema, kind, a, q);
      CheckedAt(schema, kind, b, q);
    }
  }

  lemma ProvidersUnwritable(schema: Schema, e: Edit)
    requires Sane(schema) && ValidUpdate(schema, e)
    ensures e.path != PROVIDERS
  {
  }

  lemma ShownSet(schema: Schema, e: Edit, doc: Doc)
    requires Sane(schema) && ValidUpdate(schema, e)
    ensures var after := doc[e.path := TableOf(e.values)];
            && Shown(schema, e.kind, after, e.path)
            && (forall q | q != PROVIDERS :: Shown(schema, e.kind, after, q) == Shown(schema, e.kind, doc, q))
            && (Shown(schema, e.kind, after, PROVIDERS) <==>
                  Shown(schema, e.kind, doc, PROVIDERS) && !(e.kind == Main && e.path[0] == "providers"))
  {
    WritableIsBare(schema, e.kind, e.path);
    hide TableOf, FieldsMatch, BarePath;
  }

  // ---------------------------------------------------------------------------------------------
  // Several edits
  // ---------------------------------------------------------------------------------------------

  /** Of two edits of one section only the second is left, byte for byte. */
  lemma SecondWins(schema: Schema, first: Edit, second: Edit, existing: Option<string>)
    requires Sane(schema) && (existing.Some? ==> LfOnly(existing.value)) && SafeValues(first.values)
    requires first.path == second.path && first.kind == second.kind && SetSection(schema, first, existing).Some?
    requires SetSection(schema, second, SetSection(schema, first, existing)).Some?
    ensures SetSection(schema, second, SetSection(schema, first, existing)) == SetSection(schema, second.(expected := None), existing)
  {
    hide ReadDoc, LfOnly, Bytes, Shown, Checked, EditText, AllReadable, Sane, RenderedText, FieldsOf, FieldsMatch, TableOf, Rejects, SetSection, Current, Editable, SafeValues, Writable;
    var doc := SetSectionReads(schema, first, existing);
    var once := SetSection(schema, first, existing);
    assert Clean(first.path, first.values);
    EditTextSplits(existing, first.path, first.values);
    var _ := SetSectionReads(schema, second, once);
    SecondEditOverwrites(existing, first.path, first.values, second.values);
    SetSectionExact(schema, second, once);
    SameCurrent(schema, second, existing);
    SameCurrent(schema, first, existing);
    SetSectionExact(schema, second.(expected := None), existing);
    var _ := SetSectionReads(schema, second.(expected := None), existing);
  }

  lemma SameCurrent(schema: Schema, e: Edit, existing: Option<string>)
    ensures forall f: Edit | f.kind == e.kind && f.path == e.path :: Current(schema, f, existing) == Current(schema, e, existing)
  {
    hide Parse, Rejects;
  }

  /** Sending the same edit again changes nothing. */
  lemma Resend(schema: Schema, e: Edit, existing: Option<string>)
    requires Sane(schema) && (existing.Some? ==> LfOnly(existing.value)) && SafeValues(e.values)
    requires SetSection(schema, e, existing).Some? && e.expected == None
    ensures SetSection(schema, e, SetSection(schema, e, existing)) == SetSection(schema, e, existing)
  {
    hide ReadDoc, LfOnly, Bytes, Shown, Checked, EditText, AllReadable, Sane, RenderedText, FieldsOf, FieldsMatch, TableOf, Rejects, SetSection, Editable, SafeValues, Writable, ValidUpdate;
    var once := SetSection(schema, e, existing);
    var doc := SetSectionReads(schema, e, existing);
    assert Clean(e.path, e.values);
    SetSectionExact(schema, e, existing);
    EditTextSplits(existing, e.path, e.values);
    SecondEditOverwrites(existing, e.path, e.values, e.values);
    CheckedSet(schema, e, doc);
    StaysEditable(existing, e.path, e.values, e.path);
    EditedRejects(once, e.path);
    SetSectionExact(schema, e, once);
    var _ := SetSectionReads(schema, e, once);
  }

  lemma EditedRejects(text: Option<string>, path: Path)
    requires text.Some? && Editable(text, path)
    ensures !Rejects(Splitlines(text.value), path)
  {
  }

  /** Two edits of different sections lead to the same configuration in either order. */
  lemma SettingsCommute(schema: Schema, a: Edit, b: Edit, existing: Option<string>)
    requires Sane(schema) && (existing.Some? ==> LfOnly(existing.value)) && SafeValues(a.values) && SafeValues(b.values)
    requires a.path != b.path && a.kind == b.kind
    requires SetSection(schema, a, existing).Some? && SetSection(schema, b, existing).Some?
    requires SetSection(schema, b, SetSection(schema, a, existing)).Some? && SetSection(schema, a, SetSection(schema, b, existing)).Some?
    ensures Parse(schema, a.kind, SetSection(schema, b, SetSection(schema, a, existing)).value)
         == Parse(schema, a.kind, SetSection(schema, a, SetSection(schema, b, existing)).value)
  {
    hide ReadDoc, LfOnly, Bytes, Shown, Checked, EditText, AllReadable, Sane, RenderedText, FieldsOf, FieldsMatch, TableOf, Rejects, SetSection, Current, Editable, SafeValues, Writable;
    var _ := SetSectionReads(schema, a, existing);
    var _ := SetSectionReads(schema, b, existing);
    assert Clean(a.path, a.values) && Clean(b.path, b.values);
    EditTextSplits(existing, a.path, a.values);
    EditTextSplits(existing, b.path, b.values);
    var _ := SetSectionReads(schema, b, SetSection(schema, a, existing));
    var _ := SetSectionReads(schema, a, SetSection(schema, b, existing));
    EditsCommute(existing, a.path, a.values, b.path, b.values);
  }

  // ---------------------------------------------------------------------------------------------
  // Other line breaks
  // ---------------------------------------------------------------------------------------------

  lemma AcceptedIsWritable(schema: Schema, e: Edit, existing: Option<string>)
    requires Sane(schema) && SetSection(schema, e, existing).Some?
    ensures SetSection(schema, e, existing) == Some(EditText(existing, e.path, e.values))
    ensures ValidUpdate(schema, e) && Writable(e.path, e.values) && ReadDoc(SetSection(schema, e, existing).value).Some?
    ensures existing.Some? ==> ReadDoc(existing.value).Some? && !Rejects(Splitlines(existing.value), e.path)
  {
    hide ReadDoc, Bytes, Shown, ValidUpdate, Meets, Checked, EditText, AllReadable, Sane, RenderedText, Rejects, Writable;
    RenderedParses(schema, e);
    ValidIsWritable(schema, e);
  }

  /** An accepted edit of any file, with whatever line breaks and values: the new file holds the section and what the
      lines that the editor keeps say; so nothing else changes if and only if they say all there was about the other
      tables. */
  lemma SetSectionOnAnyText(schema: Schema, e: Edit, existing: Option<string>)
    requires Sane(schema) && SetSection(schema, e, existing).Some?
    ensures ReadText(existing).Some? && Fold(Unread, OtherLines(existing, e.path)).Some?
    ensures var others := Fold(Unread, OtherLines(existing, e.path)).value.doc;
            && ReadText(SetSection(schema, e, existing)) == Some(others[e.path := TableOf(e.values)])
            && (ReadText(SetSection(schema, e, existing)) == Some(ReadText(existing).value[e.path := TableOf(e.values)])
                <==> others == ReadText(existing).value - {e.path})
  {
    hide ReadDoc, Splitlines, SetSection, EditText, Rejects, Writable, TableOf, Sane, ValidUpdate, OtherLines, Fold;
    AcceptedIsWritable(schema, e, existing);
    EditExact(existing, e.path, e.values);
  }

  /** A schema that allows a table with one field, and another section. */
  ghost predicate Knows(schema: Schema, kind: Kind, p: Path, key: string, v: Value) {
    FieldsOf(schema, kind, p).Some? && FieldsMatch(map[key := v], FieldsOf(schema, kind, p).value)
  }

  lemma KnownAreAllowed(schema: Schema, e: Edit, p: Path, key: string, v: Value)
    requires Sane(schema) && ValidUpdate(schema, e) && p != e.path && Knows(schema, e.kind, p, key, v)
    ensures Checked(schema, e.kind, map[p := map[key := v]]).Some?
    ensures Checked(schema, e.kind, map[p := map[], e.path := TableOf(e.values)]).Some?
  {
    hide TableOf, FieldsOf, IsMarker, Shown, Sane;
  }

  /** So the setter accepts a file with a line separator in a comment, and an edit of one section drops the only pair
      of another: with every schema that knows both sections, as long as the sizes are within the limit. */
  lemma SettingCanLoseData(schema: Schema, e: Edit, p: Path, key: string, v: Value)
    requires Sane(schema) && ValidUpdate(schema, e) && AllReadable(e.values) && e.expected == None
    requires p != e.path && Knows(schema, e.kind, p, key, v) && IsBareKey(key) && Printable(v) && Readable(v) && LineSafeValue(v)
    requires var text := Fragile(p, e.path, key, v);
             Bytes(text) <= MAX_CONFIG_BYTES && Bytes(EditText(Some(text), e.path, e.values)) <= MAX_CONFIG_BYTES
    ensures var text := Some(Fragile(p, e.path, key, v));
            && ReadText(text) == Some(map[p := map[key := v]])
            && ReadText(SetSection(schema, e, text)) == Some(map[p := map[], e.path := TableOf(e.values)])
  {
    hide ReadDoc, Splitlines, EditText, Rejects, Writable, TableOf, LfOnly, Sane, ValidUpdate, Fragile, Bytes, AllReadable,
         RenderedText, Checked, FieldsOf, FieldsMatch, BarePath, LineSafeValue, Readable, Printable, IsBareKey;
    RenderedParses(schema, e);
    ValidIsWritable(schema, e);
    KnownIsBare(schema, e, p, key, v);
    SeparatorLosesData(p, e.path, key, v, e.values);
    KnownAreAllowed(schema, e, p, key, v);
    var text := Some(Fragile(p, e.path, key, v));
    assert Current(schema, e, text).Some?;
  }

  lemma KnownIsBare(schema: Schema, e: Edit, p: Path, key: string, v: Value)
    requires Sane(schema) && Knows(schema, e.kind, p, key, v)
    ensures BarePath(p)
  {
    WritableIsBare(schema, e.kind, p);
  }
}
