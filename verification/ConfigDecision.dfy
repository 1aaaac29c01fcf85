/** The decision of the section setter in plain terms: which files, values and expectations it accepts. */
module ConfigDecision {
  import opened Wrappers
  import opened PyText
  import opened TomlScalar
  import opened TomlLine
  import opened SectionEdit
  import opened SectionLens
  import opened TextLens
  import opened ConfigDoc

  // ---------------------------------------------------------------------------------------------
  // Files
  // ---------------------------------------------------------------------------------------------

  /** Every key is a field of the section, and its value one of the kinds that the field's type allows. */
  ghost predicate Typed(table: Table, fields: Fields) {
    forall key | key in table ::
      key in fields
      && match table[key]
         case Bool(_) => fields[key] == TBool
         case Int(_) => fields[key] in {TInt, TNumber}
         case Float(_) => fields[key] == TNumber
         case Str(_) => fields[key] == TString
         case List(_) => fields[key] == TStringList
  }

  lemma TypedExactly(table: Table, fields: Fields)
    ensures Typed(table, fields) <==> FieldsMatch(table, fields)
  {
    forall key | key in table && key in fields
      ensures MatchesType(table[key], fields[key]) <==>
                match table[key]
                case Bool(_) => fields[key] == TBool
                case Int(_) => fields[key] in {TInt, TNumber}
                case Float(_) => fields[key] == TNumber
                case Str(_) => fields[key] == TString
                case List(_) => fields[key] == TStringList
    {
    }
  }

  /** Sixteen lower-case hexadecimal digits. */
  ghost predicate IsHex16(digits: string) {
    |digits| == 16 && forall c | c in digits :: c in "0123456789abcdef"
  }

  lemma HexDigits(c: char)
    ensures IsHex(c) <==> c in "0123456789abcdef"
  {
    var digits := "0123456789abcdef";
    if IsHex(c) {
      var k := if c <= '9' then c as int - '0' as int else c as int - 'a' as int + 10;
      assert digits[k] == c;
    }
  }

  lemma RecordIdExactly(schema: Schema, namespace: string, id: string)
    ensures IsRecordId(schema, namespace, id) <==>
              namespace in schema.idPrefix && exists digits :: IsHex16(digits) && id == schema.idPrefix[namespace] + digits
  {
    if namespace in schema.idPrefix {
      var prefix := schema.idPrefix[namespace];
      forall c
        ensures IsHex(c) <==> c in "0123456789abcdef"
      {
        HexDigits(c);
      }
      if IsRecordId(schema, namespace, id) {
        var digits := id[|prefix|..];
        assert forall k | 0 <= k < |digits| :: digits[k] == id[|prefix| + k];
        assert id == prefix + digits && IsHex16(digits);
      }
      if exists digits :: IsHex16(digits) && id == prefix + digits {
        var digits :| IsHex16(digits) && id == prefix + digits;
        assert forall k | |prefix| <= k < |id| :: id[k] == digits[k - |prefix|];
      }
    }
  }

  /** The section may hold this table: a known section or provider, or a record of a known namespace. */
  ghost predicate MayHold(schema: Schema, kind: Kind, path: Path, table: Table) {
    match kind
    case Main =>
      || (exists s :: s in schema.sections && path == [s] && Typed(table, schema.sections[s]))
      || (exists p :: p in schema.providers && path == ["providers", p] && Typed(table, schema.provider))
    case ReviewState =>
      exists n, digits :: n in schema.review && n in schema.idPrefix && IsHex16(digits)
                          && path == [n, schema.idPrefix[n] + digits] && Typed(table, schema.review[n])
  }

  lemma MayHoldExactly(schema: Schema, kind: Kind, path: Path, table: Table)
    requires Sane(schema)
    ensures MayHold(schema, kind, path, table) <==>
              FieldsOf(schema, kind, path).Some? && FieldsMatch(table, FieldsOf(schema, kind, path).value)
  {
    hide IsRecordId, IsHex16, Typed, FieldsMatch, BareFields, IsBareKey;
    forall fields
      ensures Typed(table, fields) <==> FieldsMatch(table, fields)
    {
      TypedExactly(table, fields);
    }
    match kind
    case Main =>
      if |path| == 1 {
        assert path == [path[0]];
      } else if |path| == 2 {
        assert path == [path[0], path[1]];
      }
    case ReviewState =>
      if |path| == 2 {
        assert path == [path[0], path[1]];
        RecordIdExactly(schema, path[0], path[1]);
      }
  }

  /** A table that may be there, but only empty: that of all providers, or that of a namespace. */
  ghost predicate IsHull(schema: Schema, kind: Kind, path: Path) {
    match kind
    case Main => path == ["providers"]
    case ReviewState => exists n :: n in schema.review && path == [n]
  }

  lemma HullExactly(schema: Schema, kind: Kind, path: Path)
    ensures IsHull(schema, kind, path) <==> IsMarker(schema, kind, path)
  {
    if |path| == 1 {
      assert path == [path[0]];
    }
  }

  /** A text is accepted as a configuration if and only if it is read, and every table is empty and a hull, or one that its
      section may hold. The configuration is these tables without the hulls; but the table of providers stays when there
      is no provider. */
  lemma ParseExactly(schema: Schema, kind: Kind, text: string)
    requires Sane(schema)
    ensures Parse(schema, kind, text).Some? <==>
              ReadDoc(text).Some?
              && var doc := ReadDoc(text).value;
                 forall p | p in doc :: (IsHull(schema, kind, p) && doc[p] == map[]) || MayHold(schema, kind, p, doc[p])
    ensures Parse(schema, kind, text).Some? ==>
              var doc, config := ReadDoc(text).value, Parse(schema, kind, text).value;
              forall q ::
                && (q in config <==>
                      q in doc
                      && !(kind == ReviewState && |q| == 1)
                      && !(kind == Main && q == ["providers"] && exists p :: p in doc && |p| == 2 && p[0] == "providers"))
                && (q in config ==> config[q] == doc[q])
  {
    hide MayHold, IsHull, FieldsOf, FieldsMatch, ReadDoc, IsMarker, Sane;
    if ReadDoc(text).Some? {
      var doc := ReadDoc(text).value;
      forall p | p in doc
        ensures Allowed(schema, kind, p, doc[p]) <==> (IsHull(schema, kind, p) && doc[p] == map[]) || MayHold(schema, kind, p, doc[p])
      {
        HullExactly(schema, kind, p);
        MayHoldExactly(schema, kind, p, doc[p]);
      }
      if Checked(schema, kind, doc).Some? {
        forall q | q in doc
          ensures Shown(schema, kind, doc, q) <==>
                    && !(kind == ReviewState && |q| == 1)
                    && !(kind == Main && q == ["providers"] && exists p :: p in doc && |p| == 2 && p[0] == "providers")
        {
          ShownExactly(schema, kind, doc, q);
        }
      }
    }
  }

  lemma ShownExactly(schema: Schema, kind: Kind, doc: Doc, q: Path)
    requires Sane(schema) && q in doc && Allowed(schema, kind, q, doc[q])
    ensures Shown(schema, kind, doc, q) <==>
              && !(kind == ReviewState && |q| == 1)
              && !(kind == Main && q == ["providers"] && exists p :: p in doc && |p| == 2 && p[0] == "providers")
  {
    hide FieldsMatch, BareFields, IsBareKey, IsRecordId;
    if |q| == 1 {
      assert q == [q[0]];
    }
  }

  // ---------------------------------------------------------------------------------------------
  // Expectations
  // ---------------------------------------------------------------------------------------------

  /** An expected section does exactly one thing: the edit is refused unless the file as it stands has that table at the
      section, or, if it has none there or there is no file, unless the empty table is expected. */
  lemma ExpectationExactly(schema: Schema, e: Edit, existing: Option<string>)
    requires e.expected.Some?
    ensures var holds :=
              match existing
              case None => e.expected.value == map[]
              case Some(text) =>
                && Parse(schema, e.kind, text).Some?
                && var config := Parse(schema, e.kind, text).value;
                   if e.path in config then config[e.path] == e.expected.value else e.expected.value == map[];
            SetSection(schema, e, existing) == if holds then SetSection(schema, e.(expected := None), existing) else None
  {
    hide Parse, FieldsOf, FieldsMatch, TableOf, EditText, RenderedText, Bytes, Rejects;
  }

  /** The expected section of the main configuration, likewise; a main configuration that is there must be accepted, and
      have at most 65536 bytes. */
  lemma MainExpectationExactly(schema: Schema, e: Edit, main: Option<string>)
    ensures MainHolds(schema, e, main) <==>
              e.expectedMain.Some? ==>
                var (path, table) := e.expectedMain.value;
                match main
                case None => table == map[]
                case Some(text) =>
                  && Bytes(text) <= 65536 && Parse(schema, Main, text).Some?
                  && var config := Parse(schema, Main, text).value;
                     if path in config then config[path] == table else table == map[]
  {
    hide Parse, Bytes;
  }

  // ---------------------------------------------------------------------------------------------
  // The whole decision
  // ---------------------------------------------------------------------------------------------

  /** The first line that is a header of the section, if there is one, is spelled as the editor writes it. */
  ghost predicate CanonicallySpelled(lines: seq<string>, path: Path) {
    forall k | 0 <= k < |lines| && TableHeader(lines[k]) == Some(path) && (forall j | 0 <= j < k :: TableHeader(lines[j]) != Some(path)) ::
      Strip(lines[k]) == "[" + JoinDots(path) + "]"
  }

  lemma {:induction false} RejectsExactly(lines: seq<string>, path: Path)
    ensures Rejects(lines, path) <==> !CanonicallySpelled(lines, path)
    decreases |lines|
  {
    hide TableHeader, Strip;
    if lines != [] && TableHeader(lines[0]) != Some(path) {
      RejectsExactly(lines[1..], path);
      assert forall k | 0 <= k < |lines| - 1 :: lines[1..][k] == lines[k + 1];
      if CanonicallySpelled(lines[1..], path) {
        forall k | 0 <= k < |lines| && TableHeader(lines[k]) == Some(path) && (forall j | 0 <= j < k :: TableHeader(lines[j]) != Some(path))
          ensures Strip(lines[k]) == "[" + JoinDots(path) + "]"
        {
          assert lines[1..][k - 1] == lines[k];
        }
      }
      if CanonicallySpelled(lines, path) {
        forall k | 0 <= k < |lines| - 1 && TableHeader(lines[1..][k]) == Some(path)
                   && (forall j | 0 <= j < k :: TableHeader(lines[1..][j]) != Some(path))
          ensures Strip(lines[1..][k]) == "[" + JoinDots(path) + "]"
        {
          forall j | 0 <= j < k + 1
            ensures TableHeader(lines[j]) != Some(path)
          {
            assert j > 0 ==> lines[1..][j - 1] == lines[j];
          }
          assert lines[k + 1] == lines[1..][k];
        }
      }
    }
  }

  /** No string in the value has a DEL character. */
  predicate NoDelInside(v: Value) {
    match v
    case Str(s) => '\U{7f}' !in s
    case List(items) => forall item | item in items :: '\U{7f}' !in item
    case _ => true
  }

  lemma ReadableExactly(v: Value)
    requires Printable(v)
    ensures Readable(v) <==> NoDelInside(v)
  {
    assert DELETE == '\U{7f}';
    if v.List? {
      assert forall k | 0 <= k < |v.items| :: v.items[k] in v.items;
      assert forall item :: item in v.items ==> exists k :: 0 <= k < |v.items| && v.items[k] == item;
      assert forall item :: NoDelete(item) <==> '\U{7f}' !in item;
    }
  }

  /** The setter succeeds if and only if the section may hold the values and they can be read back; the file, if there is
      one, is accepted, has at most 65536 bytes and spells the section canonically; the expectation, if there is one, holds
      of it; and the result has at most 65536 bytes. */
  lemma SetSectionDecides(schema: Schema, e: Edit, existing: Option<string>)
    requires Sane(schema) && (existing.Some? ==> LfOnly(existing.value))
    ensures SetSection(schema, e, existing).Some? <==>
              && MayHold(schema, e.kind, e.path, TableOf(e.values)) && (forall k | 0 <= k < |e.values| :: NoDelInside(e.values[k].1))
              && (existing.Some? ==>
                    && Bytes(existing.value) <= 65536 && Parse(schema, e.kind, existing.value).Some?
                    && CanonicallySpelled(Splitlines(existing.value), e.path))
              && (e.expected.Some? ==>
                    if existing.Some? && e.path in Parse(schema, e.kind, existing.value).value
                    then Parse(schema, e.kind, existing.value).value[e.path] == e.expected.value
                    else e.expected.value == map[])
              && Bytes(EditText(existing, e.path, e.values)) <= 65536
  {
    hide Parse, EditText, RenderedText, Bytes, Rejects, LfOnly, CanonicallySpelled, MayHold, NoDelInside, Readable, TableOf, FieldsOf,
         FieldsMatch, Splitlines, Sane, SetSection;
    SetSectionExact(schema, e, existing);
    MayHoldExactly(schema, e.kind, e.path, TableOf(e.values));
    forall k | 0 <= k < |e.values|
      ensures Readable(e.values[k].1) <==> NoDelInside(e.values[k].1)
    {
      ReadableExactly(e.values[k].1);
    }
    if existing.Some? {
      RejectsExactly(Splitlines(existing.value), e.path);
    }
  }

  // ---------------------------------------------------------------------------------------------
  // The text
  // ---------------------------------------------------------------------------------------------

  /** A section is rendered as its header, and below it one line for each value, in their order. */
  lemma RendersLineByLine(path: Path, values: Values)
    ensures |Rendered(path, values)| == |values| + 1 && Rendered(path, values)[0] == "[" + JoinDots(path) + "]"
    ensures forall k | 0 <= k < |values| :: Rendered(path, values)[k + 1] == values[k].0 + " = " + FormatScalar(values[k].1)
  {
    hide FormatScalar, JoinDots;
    assert |PairLines([])| == 0;
    forall k | 0 <= k < |values|
      ensures |PairLines(values)| == |values| && PairLines(values)[k] == PairLine(values[k].0, values[k].1)
    {
      PairLinesAt(values, k);
    }
    assert values == [] ==> PairLines(values) == [];
  }

  /** A section that is there once is replaced in place: what is before it stays, its header and body give way to the rendered
      lines, and what follows stays behind an empty line. */
  lemma EditsInPlace(front: seq<string>, header: string, body: seq<string>, rest: seq<string>, canonical: string, rendered: seq<string>)
    requires Strip(header) == canonical && Headless(body) && (rest != [] ==> TableHeader(rest[0]).Some?)
    requires forall line | line in front + rest :: Strip(line) != canonical
    ensures Edited(front + ([header] + (body + rest)), canonical, rendered)
         == front + rendered + if rest == [] then [] else [""] + rest
  {
    hide Strip, TableHeader;
    var lines := front + ([header] + (body + rest));
    assert lines[|front|] == header;
    assert Mentions(lines, canonical);
    assert forall k | 0 <= k < |front| :: front[k] in front + rest;
    assert forall k | 0 <= k < |rest| :: rest[k] in front + rest;
    assert !Mentions(front, canonical) && !Mentions(rest, canonical);
    ReplacedSkips(front, [header] + (body + rest), canonical, rendered);
    assert ([header] + (body + rest))[1..] == body + rest;
    HeaderBehind(body, rest);
    ReplacedSkips(rest, [], canonical, rendered);
    assert rest + [] == rest;
    hide Replaced, FromNextHeader;
    HeaderFirst(header, body, rest, canonical, rendered);
  }

  lemma HeaderFirst(header: string, body: seq<string>, rest: seq<string>, canonical: string, rendered: seq<string>)
    requires Strip(header) == canonical && FromNextHeader(body + rest) == FromNextHeader(rest)
    requires rest != [] ==> TableHeader(rest[0]).Some?
    ensures Replaced([header] + (body + rest), canonical, rendered)
         == rendered + if rest == [] then [] else [""] + Replaced(rest, canonical, rendered)
    ensures Replaced([], canonical, rendered) == []
  {
    hide Strip, TableHeader;
    assert ([header] + (body + rest))[1..] == body + rest;
  }

  /** A section that is not there is put at the end, behind an empty line if there is anything before it. */
  lemma EditsAtEnd(lines: seq<string>, canonical: string, rendered: seq<string>)
    requires forall line | line in lines :: Strip(line) != canonical
    ensures Edited(lines, canonical, rendered)
         == lines + (if lines == [] || lines[|lines| - 1] == "" then [] else [""]) + rendered
  {
    hide Strip;
    assert forall k | 0 <= k < |lines| :: lines[k] in lines;
  }
}
