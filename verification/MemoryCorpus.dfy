/** The Markdown memories of a vault, as the index builder and the graph reader find them. */
module MemoryCorpus {
  import opened Wrappers

  /** The front matter: the two fields that decide, and everything else. */
  datatype Front = Front(id: string, sensitivity: string, rest: map<string, string>)

  datatype Document = Document(front: Front, content: string)

  const SECRET := "secret-prohibited"

  /** A memory file at one moment: its document, unless it cannot be loaded; whether a link stands on the way
      to it; and whether the secret scan objects to it. */
  datatype File = File(document: Option<Document>, linked: bool, flagged: bool)

  /** The memory files and the order in which discovery visits them. */
  datatype Corpus = Corpus(order: seq<string>, files: map<string, File>)

  /** Discovery gives up on more files than these. */
  const MAX_MEMORY_FILES := 10000

  // ---------------------------------------------------------------------------------------------
  // Two orders of paths
  // ---------------------------------------------------------------------------------------------

  /** The order of strings, by code points: also that of the index, which sorts paths as texts. */
  predicate TextLess(a: string, b: string) {
    b != "" && (a == "" || a[0] < b[0] || (a[0] == b[0] && TextLess(a[1..], b[1..])))
  }

  /** `path.split("/")` */
  function Components(path: string): (parts: seq<string>)
    ensures parts != []
  {
    if path == "" then [""]
    else
      var rest := Components(path[1..]);
      if path[0] == '/' then [""] + rest else [[path[0]] + rest[0]] + rest[1..]
  }

  predicate PartsLess(a: seq<string>, b: seq<string>)
    decreases |a|
  {
    b != [] && (a == [] || TextLess(a[0], b[0]) || (a[0] == b[0] && PartsLess(a[1..], b[1..])))
  }

  /** The order of path objects, component by component: that of discovery. */
  predicate PathLess(a: string, b: string) {
    PartsLess(Components(a), Components(b))
  }

  /** The same order seen on the texts: a slash comes before every other character. */
  predicate SlashLess(a: string, b: string) {
    b != "" && (a == "" || (a[0] != b[0] && (a[0] == '/' || (b[0] != '/' && a[0] < b[0])))
                || (a[0] == b[0] && SlashLess(a[1..], b[1..])))
  }

  lemma {:induction false} PathLessIsSlashLess(a: string, b: string)
    ensures PathLess(a, b) <==> SlashLess(a, b)
    decreases |a|
  {
    hide TextLess;
    NothingLess(a);
    NothingLess(b);
    if a != "" && b != "" {
      PathLessIsSlashLess(a[1..], b[1..]);
      var x, y := Components(a[1..]), Components(b[1..]);
      OneCharMore(a[0], b[0], x, y);
    }
  }

  lemma NothingLess(p: string)
    ensures PathLess("", p) <==> p != ""
    ensures !PathLess(p, "")
  {
    assert [""][1..] == [] && Components("") == [""];
    assert !PartsLess(Components(p)[1..], []) && !TextLess(Components(p)[0], "");
    if p != "" {
      var y := Components(p[1..]);
      assert ([""] + y)[1..] == y;
    }
  }

  /** The components of a path with one character more in front. */
  function Prefixed(c: char, parts: seq<string>): seq<string>
    requires parts != []
  {
    if c == '/' then [""] + parts else [[c] + parts[0]] + parts[1..]
  }

  lemma OneCharMore(c: char, d: char, x: seq<string>, y: seq<string>)
    requires x != [] && y != []
    ensures PartsLess(Prefixed(c, x), Prefixed(d, y)) <==>
              (c != d && (c == '/' || (d != '/' && c < d))) || (c == d && PartsLess(x, y))
  {
    var u, v := Prefixed(c, x), Prefixed(d, y);
    SameHead(c, d, x[0], y[0]);
    assert u[1..] == if c == '/' then x else x[1..];
    assert v[1..] == if d == '/' then y else y[1..];
  }

  lemma SameHead(c: char, d: char, x: string, y: string)
    ensures TextLess([c] + x, [d] + y) <==> c < d || (c == d && TextLess(x, y))
    ensures [c] + x == [d] + y <==> c == d && x == y
  {
    assert ([c] + x)[1..] == x && ([d] + y)[1..] == y;
  }

  lemma {:induction false} TextLessTotal(a: string, b: string)
    ensures a == b || TextLess(a, b) || TextLess(b, a)
    ensures TextLess(a, b) ==> !TextLess(b, a) && a != b
    decreases |a|
  {
    if a != "" && b != "" {
      TextLessTotal(a[1..], b[1..]);
      assert a == [a[0]] + a[1..] && b == [b[0]] + b[1..];
    }
  }

  lemma {:induction false} SlashLessTotal(a: string, b: string)
    ensures a == b || SlashLess(a, b) || SlashLess(b, a)
    ensures SlashLess(a, b) ==> !SlashLess(b, a) && a != b
    decreases |a|
  {
    if a != "" && b != "" {
      SlashLessTotal(a[1..], b[1..]);
      assert a == [a[0]] + a[1..] && b == [b[0]] + b[1..];
    }
  }

  /** The two orders disagree on a pair of paths. */
  predicate Crossed(p: string, q: string) {
    TextLess(p, q) && PathLess(q, p)
  }

  /** That is so exactly if, where the paths first differ, one has a slash and the other a smaller character. */
  lemma {:induction false} CrossedExactly(p: string, q: string)
    ensures Crossed(p, q) <==> exists k :: 0 <= k < |p| && k < |q| && p[..k] == q[..k] && q[k] == '/' && p[k] < '/'
    decreases |p|
  {
    PathLessIsSlashLess(q, p);
    if p != "" && q != "" && p[0] == q[0] {
      CrossedExactly(p[1..], q[1..]);
      PathLessIsSlashLess(q[1..], p[1..]);
      if Crossed(p[1..], q[1..]) {
        var k :| 0 <= k < |p[1..]| && k < |q[1..]| && p[1..][..k] == q[1..][..k] && q[1..][k] == '/' && p[1..][k] < '/';
        assert p[..k + 1] == [p[0]] + p[1..][..k] && q[..k + 1] == [q[0]] + q[1..][..k];
      }
      if exists k :: 0 <= k < |p| && k < |q| && p[..k] == q[..k] && q[k] == '/' && p[k] < '/' {
        var k :| 0 <= k < |p| && k < |q| && p[..k] == q[..k] && q[k] == '/' && p[k] < '/';
        assert p[1..][..k - 1] == p[..k][1..] && q[1..][..k - 1] == q[..k][1..];
      }
    } else if p != "" && q != "" {
      assert forall k | 0 < k < |p| && k < |q| :: p[..k][0] == p[0] && q[..k][0] == q[0];
    }
  }

  // ---------------------------------------------------------------------------------------------
  // Discovery
  // ---------------------------------------------------------------------------------------------

  /** The files that there are, in the order of path objects. */
  ghost predicate Discovered(c: Corpus) {
    && (forall a, b | 0 <= a < b < |c.order| :: PathLess(c.order[a], c.order[b]))
    && (forall p | p in c.order :: p in c.files) && (forall p | p in c.files :: p in c.order)
  }

  /** What other modules compute: is a document valid, what is its content hash, and what is a path once normalized? */
  datatype Tools = Tools(valid: Document -> bool, hash: Document -> string, normal: string -> string)

  /** Two documents with the same hash are the same. */
  ghost predicate HashTells(tools: Tools) {
    forall a, b | tools.hash(a) == tools.hash(b) :: a == b
  }
}
