/** Reading one file of a vault while anything may happen to the file system between two system calls. */
module StableRead {
  import opened Wrappers

  type Byte = x: int | 0 <= x < 256

  /** A path below its anchor, as its components. */
  type Path = seq<string>

  /** Device and inode number. */
  datatype Id = Id(dev: nat, ino: nat)

  datatype Format = Regular | Directory | Symlink | Other

  /** `reparse` is the attribute by which Windows marks links. */
  datatype Inode = Inode(format: Format, reparse: bool, nlink: nat, content: seq<Byte>, mtime: nat, ctime: nat)

  /** The file system at one moment: what a path names, what opening it leads to, its canonical form with
      every link resolved, and every inode. */
  datatype World = World(
    names: Path -> Option<Id>, opens: Path -> Option<Id>, canonical: Path -> Option<Path>, inode: Id -> Inode)

  datatype Meta = Meta(id: Id, format: Format, reparse: bool, nlink: nat, size: nat, mtime: nat, ctime: nat)

  datatype Failure = NotFound | Unreadable | NotRegular | NoIdentity | ManyLinks | TooLarge | Changed | NotDirectory

  function MetaOf(w: World, id: Id): Meta {
    var i := w.inode(id);
    Meta(id, i.format, i.reparse, i.nlink, |i.content|, i.mtime, i.ctime)
  }

  function LstatOf(w: World, failing: bool, path: Path): Result<Meta, Failure> {
    if failing then Err(Unreadable)
    else match w.names(path)
      case None => Err(NotFound)
      case Some(id) => Ok(MetaOf(w, id))
  }

  /** A read delivers at least one byte and at most `n`, unless it starts at or behind the end. */
  function ReadOf(content: seq<Byte>, offset: nat, n: nat, short: nat): (chunk: seq<Byte>)
    requires n > 0
    ensures |chunk| <= n && (chunk == [] <==> |content| <= offset)
    ensures chunk != [] ==> offset + |chunk| <= |content| && chunk == content[offset..offset + |chunk|]
  {
    if |content| <= offset then []
    else
      var most := if n < |content| - offset then n else |content| - offset;
      content[offset..offset + 1 + short % most]
  }

  /** The kernel as the program meets it: every call takes effect at some later moment of the history,
      may fail, and may deliver less than was asked for. */
  class Kernel {
    const history: nat -> World
    const pause: nat -> nat
    const failing: nat -> bool
    const short: nat -> nat
    var now: nat

    method Lstat(path: Path) returns (r: Result<Meta, Failure>)
      modifies this
      ensures now > old(now) && r == LstatOf(history(now), failing(now), path)
    {
      now := now + 1 + pause(now);
      r := LstatOf(history(now), failing(now), path);
    }

    method Resolve(path: Path) returns (r: Result<Path, Failure>)
      modifies this
      ensures now > old(now)
      ensures r == if failing(now) || history(now).canonical(path) == None then Err(Unreadable)
                   else Ok(history(now).canonical(path).value)
    {
      now := now + 1 + pause(now);
      r := if failing(now) || history(now).canonical(path).None? then Err(Unreadable) else Ok(history(now).canonical(path).value);
    }

    method Open(path: Path) returns (r: Result<Id, Failure>)
      modifies this
      ensures now > old(now)
      ensures r == if failing(now) || history(now).opens(path) == None then Err(Unreadable) else Ok(history(now).opens(path).value)
    {
      now := now + 1 + pause(now);
      r := if failing(now) || history(now).opens(path).None? then Err(Unreadable) else Ok(history(now).opens(path).value);
    }

    method Fstat(id: Id) returns (r: Result<Meta, Failure>)
      modifies this
      ensures now > old(now)
      ensures r == if failing(now) then Err(Unreadable) else Ok(MetaOf(history(now), id))
    {
      now := now + 1 + pause(now);
      r := if failing(now) then Err(Unreadable) else Ok(MetaOf(history(now), id));
    }

    method Read(id: Id, offset: nat, n: nat) returns (r: Result<seq<Byte>, Failure>)
      requires n > 0
      modifies this
      ensures now > old(now)
      ensures r == if failing(now) then Err(Unreadable) else Ok(ReadOf(history(now).inode(id).content, offset, n, short(now)))
    {
      now := now + 1 + pause(now);
      r := if failing(now) then Err(Unreadable) else Ok(ReadOf(history(now).inode(id).content, offset, n, short(now)));
    }
  }

  // ---------------------------------------------------------------------------------------------
  // Checks
  // ---------------------------------------------------------------------------------------------

  predicate Unsafe(m: Meta) {
    m.format == Symlink || m.reparse
  }

  function ValidateRegular(m: Meta): Option<Failure> {
    if Unsafe(m) || m.format != Regular then Some(NotRegular)
    else if m.id.ino == 0 then Some(NoIdentity)
    else if m.nlink != 1 then Some(ManyLinks)
    else None
  }

  function ValidateDirectory(m: Meta): Option<Failure> {
    if Unsafe(m) || m.format != Directory then Some(NotDirectory)
    else if m.id.ino == 0 then Some(NoIdentity)
    else None
  }

  predicate SameEntry(a: Meta, b: Meta) {
    a.id == b.id && a.format == b.format
  }

  predicate SameFile(a: Meta, b: Meta, compareCtime: bool) {
    SameEntry(a, b) && a.size == b.size && a.mtime == b.mtime && (compareCtime ==> a.ctime == b.ctime)
  }

  // ---------------------------------------------------------------------------------------------
  // Reading a regular file
  // ---------------------------------------------------------------------------------------------

  /** The content of an inode is one and the same from `a` to `b`. */
  ghost predicate Steady(history: nat -> World, id: Id, a: nat, b: nat) {
    forall t | a <= t <= b :: history(t).inode(id).content == history(a).inode(id).content
  }

  /** Every write shows: where kind, size and both times agree at two moments, nothing was written in between. */
  ghost predicate WritesShow(history: nat -> World) {
    forall id: Id, a: nat, b: nat | a <= b && Unmarked(history(a).inode(id), history(b).inode(id)) :: Steady(history, id, a, b)
  }

  predicate Unmarked(i: Inode, j: Inode) {
    i.format == j.format && |i.content| == |j.content| && i.mtime == j.mtime && i.ctime == j.ctime
  }

  /** A regular file, no link of any kind, with an inode number and one name. */
  predicate IsPlainFile(id: Id, i: Inode) {
    i.format == Regular && !i.reparse && id.ino != 0 && i.nlink == 1
  }

  /** A directory, no link of any kind, with an inode number. */
  predicate IsPlainDirectory(id: Id, i: Inode) {
    i.format == Directory && !i.reparse && id.ino != 0
  }

  lemma ValidExactly(w: World, id: Id)
    ensures ValidateRegular(MetaOf(w, id)).None? <==> IsPlainFile(id, w.inode(id))
    ensures ValidateDirectory(MetaOf(w, id)).None? <==> IsPlainDirectory(id, w.inode(id))
  {
  }

  /** The file was a plain one at the path at moment `t`. */
  ghost predicate Seen(history: nat -> World, path: Path, id: Id, t: nat) {
    history(t).names(path) == Some(id) && IsPlainFile(id, history(t).inode(id))
  }

  /** What a successful read means: some inode, seen at the path at the first and at the last moment, held
      exactly this content during a whole interval in between. */
  ghost predicate ReadWhole(history: nat -> World, path: Path, id: Id, first: nat, a: nat, b: nat, last: nat, body: seq<Byte>) {
    && first < a <= b < last
    && Seen(history, path, id, first) && Seen(history, path, id, last)
    && IsPlainFile(id, history(a).inode(id)) && IsPlainFile(id, history(b).inode(id))
    && forall t | a <= t <= b :: history(t).inode(id).content == body
  }

  /** From `t` on nothing fails and nothing about the path changes. */
  ghost predicate Quiet(k: Kernel, path: Path, t: nat)
    reads k
  {
    forall u | u > t ::
      && !k.failing(u) && k.history(u).names(path) == k.history(t).names(path) && k.history(u).opens(path) == k.history(u).names(path)
      && (k.history(u).names(path).Some? ==>
            k.history(u).inode(k.history(u).names(path).value) == k.history(t).inode(k.history(u).names(path).value))
  }

  /** What reading gives when nothing changes. */
  function Undisturbed(w: World, path: Path, limit: nat): Result<seq<Byte>, Failure> {
    match w.names(path)
    case None => Err(NotFound)
    case Some(id) =>
      var i := w.inode(id);
      if i.format != Regular || i.reparse then Err(NotRegular)
      else if id.ino == 0 then Err(NoIdentity)
      else if i.nlink == 0 || i.nlink > 1 then Err(ManyLinks)
      else if |i.content| > limit then Err(TooLarge)
      else Ok(i.content)
  }

  const CHUNK := 64 * 1024

  /** The bounded read: at most one byte more than the limit, in chunks of any length. */
  method ReadBody(k: Kernel, id: Id, limit: nat) returns (r: Result<seq<Byte>, Failure>)
    modifies k
    ensures k.now >= old(k.now)
    ensures r.Ok? ==> |r.value| <= limit + 1
    ensures r.Ok? && Steady(k.history, id, old(k.now), k.now) ==>
              var content := k.history(old(k.now)).inode(id).content;
              r.value == if |content| <= limit then content else content[..limit + 1]
    ensures r.Err? ==> exists t :: t > old(k.now) && k.failing(t)
  {
    var body := [];
    ghost var start := k.now;
    while |body| <= limit
      invariant k.now >= start && |body| <= limit + 1
      invariant Steady(k.history, id, start, k.now) ==> body <= k.history(start).inode(id).content
      decreases limit + 1 - |body|
    {
      var n := if CHUNK < limit + 1 - |body| then CHUNK else limit + 1 - |body|;
      ghost var before := k.now;
      var chunk := k.Read(id, |body|, n);
      if chunk.Err? {
        return Err(chunk.error);
      }
      assert Steady(k.history, id, start, k.now) ==> Steady(k.history, id, start, before);
      if chunk.value == [] {
        break;
      }
      body := body + chunk.value;
    }
    return Ok(body);
  }

  /** The bounded read of the final path entry: links, devices, extra names and swaps are refused. */
  method ReadRegular(k: Kernel, path: Path, limit: nat) returns (r: Result<seq<Byte>, Failure>, ghost id: Id, ghost moments: seq<nat>)
    requires WritesShow(k.history)
    modifies k
    ensures k.now > old(k.now)
    ensures r.Ok? ==> |r.value| <= limit && |moments| == 4 && old(k.now) < moments[0] && moments[3] == k.now
                      && ReadWhole(k.history, path, id, moments[0], moments[1], moments[2], moments[3], r.value)
    ensures old(Quiet(k, path, k.now)) ==> r == Undisturbed(k.history(old(k.now)), path, limit)
  {
    id, moments := Id(0, 0), [];
    var before := k.Lstat(path);
    if before.Err? {
      return Err(before.error), id, moments;
    }
    moments := [k.now];
    var invalid := ValidateRegular(before.value);
    if invalid.Some? {
      return Err(invalid.value), id, moments;
    }
    if before.value.size > limit {
      return Err(TooLarge), id, moments;
    }
    var descriptor := k.Open(path);
    if descriptor.Err? {
      return Err(descriptor.error), id, moments;
    }
    id := descriptor.value;
    var from := k.Fstat(descriptor.value);
    if from.Err? {
      return Err(from.error), id, moments;
    }
    moments := moments + [k.now];
    invalid := ValidateRegular(from.value);
    if invalid.Some? {
      return Err(invalid.value), id, moments;
    }
    if !SameFile(before.value, from.value, false) {
      return Err(Changed), id, moments;
    }
    var body := ReadBody(k, descriptor.value, limit);
    if body.Err? {
      return Err(body.error), id, moments;
    }
    if |body.value| > limit {
      return Err(TooLarge), id, moments;
    }
    var upTo := k.Fstat(descriptor.value);
    if upTo.Err? {
      return Err(upTo.error), id, moments;
    }
    moments := moments + [k.now];
    invalid := ValidateRegular(upTo.value);
    if invalid.Some? {
      return Err(invalid.value), id, moments;
    }
    if !SameFile(from.value, upTo.value, true) {
      return Err(Changed), id, moments;
    }
    assert Steady(k.history, id, moments[1], moments[2]);
    var after := k.Lstat(path);
    if after.Err? {
      return Err(Unreadable), id, moments;
    }
    moments := moments + [k.now];
    invalid := ValidateRegular(after.value);
    if invalid.Some? {
      return Err(invalid.value), id, moments;
    }
    if !SameFile(upTo.value, after.value, false) {
      return Err(Changed), id, moments;
    }
    return Ok(body.value), id, moments;
  }

  // ---------------------------------------------------------------------------------------------
  // Directories
  // ---------------------------------------------------------------------------------------------

  /** From the path up to its anchor, then reversed. */
  method DirectoryChain(path: Path) returns (chain: seq<Path>)
    ensures |chain| == |path| + 1 && forall j | 0 <= j <= |path| :: chain[j] == path[..j]
  {
    chain := [];
    var current := path;
    while true
      invariant current <= path && |chain| == |path| - |current|
      invariant forall j | 0 <= j < |chain| :: chain[j] == path[..|path| - j]
      decreases |current|
    {
      chain := chain + [current];
      if current == [] {
        break;
      }
      current := current[..|current| - 1];
    }
    var upward := chain;
    chain := seq(|upward|, j requires 0 <= j < |upward| => upward[|upward| - 1 - j]);
  }

  type Snapshot = seq<(Path, Meta)>

  /** Every directory on the way to the path, each as it was at its own moment. */
  ghost predicate Observed(history: nat -> World, path: Path, snapshot: Snapshot, moments: seq<nat>, from: nat, to: nat) {
    && |snapshot| == |moments| == |path| + 1
    && forall j | 0 <= j <= |path| ::
         && from < moments[j] <= to
         && snapshot[j].0 == path[..j]
         && IsDirectory(history, path[..j], snapshot[j].1.id, moments[j])
         && snapshot[j].1 == MetaOf(history(moments[j]), snapshot[j].1.id)
  }

  /** The path named this plain directory at moment `t`. */
  ghost predicate IsDirectory(history: nat -> World, path: Path, id: Id, t: nat) {
    history(t).names(path) == Some(id) && IsPlainDirectory(id, history(t).inode(id))
  }

  /** From `t` on nothing fails and nothing changes at all. */
  ghost predicate Still(k: Kernel, t: nat)
    reads k
  {
    forall u | u > t :: !k.failing(u) && k.history(u) == k.history(t)
  }

  /** Why a path is no directory to go through. */
  function DirectoryFault(w: World, path: Path): Option<Failure> {
    match w.names(path)
    case None => Some(NotFound)
    case Some(id) =>
      if w.inode(id).format != Directory || w.inode(id).reparse then Some(NotDirectory)
      else if id.ino == 0 then Some(NoIdentity)
      else None
  }

  /** The first fault on the way down, among the first `n` directories. */
  function FirstFault(w: World, path: Path, n: nat): Option<Failure>
    requires n <= |path| + 1
  {
    if n == 0 then None
    else if FirstFault(w, path, n - 1).Some? then FirstFault(w, path, n - 1)
    else DirectoryFault(w, path[..n - 1])
  }

  lemma {:induction false} FaultStays(w: World, path: Path, m: nat, n: nat)
    requires m <= n <= |path| + 1 && FirstFault(w, path, m).Some?
    ensures FirstFault(w, path, n) == FirstFault(w, path, m)
    decreases n
  {
    if m < n {
      FaultStays(w, path, m, n - 1);
    }
  }

  method DirectorySnapshot(k: Kernel, path: Path) returns (r: Result<Snapshot, Failure>, ghost moments: seq<nat>)
    modifies k
    ensures k.now > old(k.now)
    ensures r.Ok? ==> Observed(k.history, path, r.value, moments, old(k.now), k.now)
    ensures old(Still(k, k.now)) ==>
              var fault := FirstFault(k.history(old(k.now)), path, |path| + 1);
              if fault.Some? then r == Err(fault.value) else r.Ok?
  {
    ghost var w := k.history(k.now);
    var chain := DirectoryChain(path);
    var snapshot: Snapshot := [];
    moments := [];
    for j := 0 to |chain|
      invariant |snapshot| == |moments| == j && k.now >= old(k.now) && (j > 0 ==> k.now > old(k.now))
      invariant forall i | 0 <= i < j ::
                  && old(k.now) < moments[i] <= k.now
                  && snapshot[i].0 == path[..i]
                  && IsDirectory(k.history, path[..i], snapshot[i].1.id, moments[i])
                  && snapshot[i].1 == MetaOf(k.history(moments[i]), snapshot[i].1.id)
      invariant old(Still(k, k.now)) ==> FirstFault(w, path, j).None?
    {
      var metadata := k.Lstat(chain[j]);
      if old(Still(k, k.now)) && FirstFault(w, path, j + 1).Some? {
        FaultStays(w, path, j + 1, |path| + 1);
      }
      if metadata.Err? {
        return Err(metadata.error), moments;
      }
      var invalid := ValidateDirectory(metadata.value);
      if invalid.Some? {
        return Err(invalid.value), moments;
      }
      snapshot := snapshot + [(chain[j], metadata.value)];
      moments := moments + [k.now];
    }
    return Ok(snapshot), moments;
  }

  predicate SameSnapshot(a: Snapshot, b: Snapshot) {
    |a| == |b| && forall j | 0 <= j < |a| :: a[j].0 == b[j].0 && SameEntry(a[j].1, b[j].1)
  }

  // ---------------------------------------------------------------------------------------------
  // A whole vault
  // ---------------------------------------------------------------------------------------------

  const CONFIG: string := ".ai-dememory.toml"
  const MAX_VAULT_CONFIG_BYTES := 64 * 1024

  /** The path named the same plain directory at a moment up to `a` and at one from `b` on. */
  ghost predicate Flanked(history: nat -> World, path: Path, a: nat, b: nat) {
    exists id: Id, t: nat, u: nat {:trigger IsDirectory(history, path, id, t), IsDirectory(history, path, id, u)} ::
      t <= a && b <= u && IsDirectory(history, path, id, t) && IsDirectory(history, path, id, u)
  }

  /** So did every directory on the way down to the path. */
  ghost predicate Enclosed(history: nat -> World, path: Path, a: nat, b: nat) {
    forall j | 0 <= j <= |path| :: Flanked(history, path[..j], a, b)
  }

  lemma SnapshotsEnclose(history: nat -> World, path: Path, x: Snapshot, s: seq<nat>, y: Snapshot, t: seq<nat>,
                         from: nat, a: nat, b: nat, to: nat, a': nat, b': nat)
    requires Observed(history, path, x, s, from, a) && Observed(history, path, y, t, b, to) && SameSnapshot(x, y)
    requires a <= a' && b' <= b
    ensures Enclosed(history, path, a', b')
  {
    forall j | 0 <= j <= |path|
      ensures Flanked(history, path[..j], a', b')
    {
      assert s[j] <= a' && b' <= t[j];
      assert IsDirectory(history, path[..j], x[j].1.id, s[j]);
      assert IsDirectory(history, path[..j], x[j].1.id, t[j]);
    }
  }

  /** What validating a vault comes to when nothing changes: the first thing that is wrong, in the order of looking. */
  function VaultFault(w: World, root: Path): Option<Failure> {
    if DirectoryFault(w, root).Some? then DirectoryFault(w, root)
    else match w.canonical(root)
      case None => Some(Unreadable)
      case Some(path) => BelowFault(w, w.names(root), path)
  }

  function BelowFault(w: World, root: Option<Id>, path: Path): Option<Failure> {
    if FirstFault(w, path, |path| + 1).Some? then FirstFault(w, path, |path| + 1)
    else if w.names(path) != root then Some(Changed)
    else match Undisturbed(w, path + [CONFIG], 65536)
      case Err(f) => Some(f)
      case Ok(_) => None
  }

  lemma StillIsQuiet(k: Kernel, path: Path, t: nat, u: nat)
    requires Still(k, t) && t <= u && k.history(t).opens(path) == k.history(t).names(path)
    ensures Quiet(k, path, u)
  {
  }

  lemma StaysStill(k: Kernel, t: nat, u: nat)
    requires Still(k, t) && t <= u
    ensures Still(k, u) && k.history(u) == k.history(t)
  {
  }


  /** Opening the configuration file of the vault leads to what its path names. */
  predicate OpensPlainly(w: World, path: Path) {
    w.opens(path + [CONFIG]) == w.names(path + [CONFIG])
  }

  /** The read of the configuration file between two looks at the directories. */
  method ReadInside(k: Kernel, path: Path, root: Meta) returns (r: Result<(), Failure>, ghost moments: seq<nat>)
    requires WritesShow(k.history) && root.format == Directory
    modifies k
    ensures k.now > old(k.now)
    ensures r.Ok? ==>
      && |moments| == 4 && moments[3] <= k.now
      && Enclosed(k.history, path, moments[0], moments[3])
      && (exists t: nat :: old(k.now) < t <= moments[0] && IsDirectory(k.history, path, root.id, t))
      && (exists id: Id, body: seq<Byte> :: |body| <= 65536
            && ReadWhole(k.history, path + [CONFIG], id, moments[0], moments[1], moments[2], moments[3], body))
    ensures var w := k.history(old(k.now));
            old(Still(k, k.now)) && OpensPlainly(w, path) ==>
              r == match BelowFault(w, Some(root.id), path) case None => Ok(()) case Some(f) => Err(f)
  {
    hide Quiet, FirstFault, WritesShow, ReadWhole, Undisturbed;
    ghost var from, w := k.now, k.history(k.now);
    ghost var still := Still(k, from) && OpensPlainly(w, path);
    moments := [];
    var beforeChain, beforeMoments := DirectorySnapshot(k, path);
    if beforeChain.Err? {
      return Err(beforeChain.error), moments;
    }
    ghost var opening := k.now;
    if still {
      StaysStill(k, from, opening);
      StillIsQuiet(k, path + [CONFIG], from, opening);
      StaysStill(k, from, beforeMoments[|path|]);
    }
    assert path[..|path|] == path;
    assert IsDirectory(k.history, path, beforeChain.value[|path|].1.id, beforeMoments[|path|]);
    if !SameEntry(root, beforeChain.value[|path|].1) {
      return Err(Changed), moments;
    }
    var config, id, readMoments := ReadRegular(k, path + [CONFIG], MAX_VAULT_CONFIG_BYTES);
    if config.Err? {
      return Err(config.error), moments;
    }
    moments := readMoments;
    ghost var closing := k.now;
    if still {
      StaysStill(k, from, closing);
    }
    var afterChain, afterMoments := DirectorySnapshot(k, path);
    if afterChain.Err? {
      return Err(afterChain.error), moments;
    }
    if still {
      StillSame(k, path, from, beforeChain.value, beforeMoments, opening, afterChain.value, afterMoments, closing, k.now);
    }
    if !SameSnapshot(beforeChain.value, afterChain.value) {
      return Err(Changed), moments;
    }
    SnapshotsEnclose(k.history, path, beforeChain.value, beforeMoments, afterChain.value, afterMoments,
                     from, opening, closing, k.now, moments[0], moments[3]);
    return Ok(()), moments;
  }

  /** Two snapshots of a file system that stands still are the same. */
  lemma StillSame(k: Kernel, path: Path, start: nat, x: Snapshot, s: seq<nat>, a: nat, y: Snapshot, t: seq<nat>, b: nat, to: nat)
    requires Still(k, start) && start <= b && Observed(k.history, path, x, s, start, a) && Observed(k.history, path, y, t, b, to)
    ensures SameSnapshot(x, y)
  {
    forall j | 0 <= j <= |path|
      ensures x[j].0 == y[j].0 && SameEntry(x[j].1, y[j].1)
    {
      StaysStill(k, start, s[j]);
      StaysStill(k, start, t[j]);
    }
  }

  /** A vault is accepted only if its root and every directory above it stayed what they were while its configuration file,
      of at most 65536 bytes, was read, whole and unchanged, from inside them. When nothing changes it is accepted exactly
      if nothing is wrong with it. */
  method ValidateStructuralVault(k: Kernel, root: Path) returns (r: Result<Path, Failure>, ghost first: nat, ghost moments: seq<nat>)
    requires WritesShow(k.history)
    modifies k
    ensures r.Ok? ==>
      && |moments| == 4 && old(k.now) < first <= moments[0] && moments[3] <= k.now
      && Enclosed(k.history, r.value, moments[0], moments[3])
      && (exists id: Id, t: nat :: first <= t <= moments[0] && IsDirectory(k.history, root, id, first) && IsDirectory(k.history, r.value, id, t))
      && (exists id: Id, body: seq<Byte> :: |body| <= 65536
            && ReadWhole(k.history, r.value + [CONFIG], id, moments[0], moments[1], moments[2], moments[3], body))
    ensures var w := k.history(old(k.now));
            old(Still(k, k.now)) && (w.canonical(root).Some? ==> OpensPlainly(w, w.canonical(root).value)) ==>
              r == match VaultFault(w, root) case None => Ok(w.canonical(root).value) case Some(f) => Err(f)
  {
    hide WritesShow, ReadWhole, BelowFault, Enclosed, OpensPlainly;
    ghost var begin := k.now;
    first, moments := 0, [];
    var rootMetadata := k.Lstat(root);
    if rootMetadata.Err? {
      return Err(rootMetadata.error), first, moments;
    }
    first := k.now;
    var invalid := ValidateDirectory(rootMetadata.value);
    if invalid.Some? {
      return Err(invalid.value), first, moments;
    }
    assert IsDirectory(k.history, root, rootMetadata.value.id, first);
    var canonicalRoot := k.Resolve(root);
    if canonicalRoot.Err? {
      return Err(canonicalRoot.error), first, moments;
    }
    var path := canonicalRoot.value;
    if Still(k, begin) {
      StaysStill(k, begin, k.now);
    }
    var confirmed;
    confirmed, moments := ReadInside(k, path, rootMetadata.value);
    if confirmed.Err? {
      return Err(confirmed.error), first, moments;
    }
    return Ok(path), first, moments;
  }
}
