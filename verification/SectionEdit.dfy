/** Replacing one section of a configuration file, line by line. */
module SectionEdit {
  import opened Wrappers
  import opened PyText
  import opened TomlScalar
  import opened TomlLine

  /** The values of a section in the order they are written; a dictionary has each key once. */
  type Values = seq<(string, Value)>

  predicate DistinctKeys(values: Values) {
    forall a, b | 0 <= a < b < |values| :: values[a].0 != values[b].0
  }

  function TableOf(values: Values): Table {
    if values == [] then map[] else TableOf(values[..|values| - 1])[values[|values| - 1].0 := values[|values| - 1].1]
  }

  /** The one header spelling that the editor can replace. */
  function Canonical(path: Path): string {
    "[" + JoinDots(path) + "]"
  }

  function PairLine(key: string, value: Value): string {
    key + " = " + FormatScalar(value)
  }

  function PairLines(values: Values): seq<string> {
    if values == [] then []
    else PairLines(values[..|values| - 1]) + [PairLine(values[|values| - 1].0, values[|values| - 1].1)]
  }

  function Rendered(path: Path, values: Values): seq<string> {
    [Canonical(path)] + PairLines(values)
  }

  // ---------------------------------------------------------------------------------------------
  // The edit
  // ---------------------------------------------------------------------------------------------

  /** Everything from the next table header on. */
  function FromNextHeader(lines: seq<string>): (rest: seq<string>)
    ensures |rest| <= |lines|
  {
    if lines == [] || TableHeader(lines[0]).Some? then lines else FromNextHeader(lines[1..])
  }

  /** Every canonical header of the section is replaced, with its body, by the rendered lines. */
  function Replaced(lines: seq<string>, canonical: string, rendered: seq<string>): seq<string>
    decreases |lines|
  {
    if lines == [] then []
    else if Strip(lines[0]) == canonical then
      var rest := FromNextHeader(lines[1..]);
      rendered + (if rest == [] then [] else [""] + Replaced(rest, canonical, rendered))
    else [lines[0]] + Replaced(lines[1..], canonical, rendered)
  }

  ghost predicate Mentions(lines: seq<string>, canonical: string) {
    exists k :: 0 <= k < |lines| && Strip(lines[k]) == canonical
  }

  function Appended(lines: seq<string>, rendered: seq<string>): seq<string> {
    lines + (if lines != [] && lines[|lines| - 1] != "" then [""] else []) + rendered
  }

  ghost function Edited(lines: seq<string>, canonical: string, rendered: seq<string>): seq<string> {
    if Mentions(lines, canonical) then Replaced(lines, canonical, rendered) else Appended(lines, rendered)
  }

  lemma {:induction false} NotMentioned(lines: seq<string>, canonical: string, rendered: seq<string>)
    requires !Mentions(lines, canonical)
    ensures Replaced(lines, canonical, rendered) == lines
    decreases |lines|
  {
    if lines != [] {
      assert forall k | 0 <= k < |lines[1..]| :: lines[1..][k] == lines[k + 1];
      NotMentioned(lines[1..], canonical, rendered);
      assert Strip(lines[0]) != canonical;
    }
  }

  /** The output so far, completed by what the remaining lines still contribute, is the whole replacement. */
  predicate OnTrack(existing: seq<string>, index: nat, output: seq<string>, canonical: string, rendered: seq<string>)
    requires index <= |existing|
  {
    Replaced(existing, canonical, rendered) == output + Replaced(existing[index..], canonical, rendered)
  }

  lemma KeepsLine(existing: seq<string>, index: nat, output: seq<string>, canonical: string, rendered: seq<string>)
    requires index < |existing| && Strip(existing[index]) != canonical
    requires OnTrack(existing, index, output, canonical, rendered)
    ensures OnTrack(existing, index + 1, output + [existing[index]], canonical, rendered)
  {
    hide Strip;
    assert existing[index..][1..] == existing[index + 1..];
    assert output + ([existing[index]] + Replaced(existing[index + 1..], canonical, rendered))
        == (output + [existing[index]]) + Replaced(existing[index + 1..], canonical, rendered);
  }

  lemma ReplacesSection(existing: seq<string>, index: nat, next: nat, output: seq<string>, canonical: string, rendered: seq<string>)
    requires index < next <= |existing| && Strip(existing[index]) == canonical
    requires FromNextHeader(existing[index + 1..]) == existing[next..]
    requires OnTrack(existing, index, output, canonical, rendered)
    ensures OnTrack(existing, next, output + rendered + (if next < |existing| then [""] else []), canonical, rendered)
  {
    hide Strip, FromNextHeader;
    assert existing[index..][1..] == existing[index + 1..];
    var rest := Replaced(existing[next..], canonical, rendered);
    if next < |existing| {
      assert output + (rendered + ([""] + rest)) == (output + rendered + [""]) + rest;
    } else {
      assert output + (rendered + []) == (output + rendered + []) + rest;
    }
  }

  /** Skip the body of the section being replaced: up to the next table header. */
  method SkipBody(existing: seq<string>, start: nat) returns (index: nat)
    requires start <= |existing|
    ensures start <= index <= |existing| && FromNextHeader(existing[start..]) == existing[index..]
  {
    index := start;
    while index < |existing|
      invariant start <= index <= |existing|
      invariant FromNextHeader(existing[start..]) == FromNextHeader(existing[index..])
    {
      if TableHeader(existing[index]).Some? {
        break;
      }
      assert existing[index..][1..] == existing[index + 1..];
      index := index + 1;
    }
  }

  /** The editing loop: one pass over the existing lines, building the output as it goes. */
  method EditLines(existing: seq<string>, canonical: string, rendered: seq<string>) returns (output: seq<string>)
    requires rendered != [] && rendered[|rendered| - 1] != ""
    ensures output == Edited(existing, canonical, rendered)
  {
    hide Strip, FromNextHeader, Replaced, Mentions;
    output := [];
    var index := 0;
    var replaced := false;
    NothingMentioned(existing, canonical, rendered);
    while index < |existing|
      invariant 0 <= index <= |existing|
      invariant OnTrack(existing, index, output, canonical, rendered)
      invariant replaced <==> Mentions(existing[..index], canonical)
      invariant !replaced ==> output == existing[..index]
      decreases |existing| - index
    {
      var line := existing[index];
      if Strip(line) == canonical {
        replaced := true;
        ghost var before, at := output, index;
        output := output + rendered;
        index := SkipBody(existing, index + 1);
        if index < |existing| && output != [] && output[|output| - 1] != "" {
          output := output + [""];
        }
        ReplacesSection(existing, at, index, before, canonical, rendered);
        MentionsAt(existing[..index], at, canonical);
        continue;
      }
      KeepsLine(existing, index, output, canonical, rendered);
      MentionsOneMore(existing[..index], line, canonical);
      assert existing[..index + 1] == existing[..index] + [line];
      output := output + [line];
      index := index + 1;
    }
    assert existing[..index] == existing;
    if !replaced {
      if output != [] && output[|output| - 1] != "" {
        output := output + [""];
      }
      output := output + rendered;
    } else {
      NothingLeft(existing, output, canonical, rendered);
    }
  }

  lemma NothingMentioned(existing: seq<string>, canonical: string, rendered: seq<string>)
    ensures !Mentions(existing[..0], canonical) && OnTrack(existing, 0, [], canonical, rendered)
  {
  }

  lemma NothingLeft(existing: seq<string>, output: seq<string>, canonical: string, rendered: seq<string>)
    requires OnTrack(existing, |existing|, output, canonical, rendered)
    ensures output == Replaced(existing, canonical, rendered)
  {
  }

  lemma MentionsAt(lines: seq<string>, k: nat, canonical: string)
    requires k < |lines| && Strip(lines[k]) == canonical
    ensures Mentions(lines, canonical)
  {
  }

  lemma MentionsOneMore(lines: seq<string>, line: string, canonical: string)
    ensures Mentions(lines + [line], canonical) <==> Mentions(lines, canonical) || Strip(line) == canonical
  {
    if Mentions(lines, canonical) {
      var k :| 0 <= k < |lines| && Strip(lines[k]) == canonical;
      assert (lines + [line])[k] == lines[k];
    }
    if Strip(line) == canonical {
      assert (lines + [line])[|lines|] == line;
    }
  }
}
