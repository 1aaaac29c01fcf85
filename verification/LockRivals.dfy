/** When a second owner can enter beside one that is inside, with nobody tampering any more. */
module LockRivals {
  import opened Wrappers
  import opened LockTable
  import opened LockProtocol
  import opened LockInvariant
  import opened LockSafety

  /** From `s` a run that leaves the lock path alone ends with the owner `i` still inside its guarded body, and beside it a
      new activation `j` for the same key. */
  ghost predicate Beside(s: State, i: nat, es: seq<Event>, t: State, j: nat)
    requires i in s.invs
  {
    && Untampered(es) && Runs(s, es, t) && i in t.invs && t.invs[i] == s.invs[i]
    && s.nextInv <= j && j in t.invs && t.invs[j].key == s.invs[i].key && t.invs[j].pc.Critical?
  }

  // ---------------------------------------------------------------------------------------------
  // Whoever enters later has locked the file that the path names now
  // ---------------------------------------------------------------------------------------------

  /** The path of `key` names this file, and no activation numbered `from` or later has opened another one for the key. */
  ghost predicate Settled(invs: Invs, names: map<string, nat>, key: string, from: nat, file: nat) {
    && key in names && names[key] == file
    && forall j | j in invs && j >= from && invs[j].key == key && invs[j].fd.Some? :: invs[j].fd.value == file
  }

  lemma ActionKeepsSettled(s: State, i: nat, a: Action, key: string, from: nat, file: nat)
    requires Settled(s.invs, s.names, key, from, file) && i in s.invs && Allowed(s, s.invs[i], a)
    ensures Settled(s.invs[i := Moved(s, s.invs[i], a)], NamesAfter(s.names, s.invs[i], a), key, from, file)
  {
  }

  lemma StepKeepsSettled(s: State, e: Event, key: string, from: nat, file: nat)
    requires Settled(s.invs, s.names, key, from, file) && Enabled(s, e) && !e.Replace? && !e.Unlink?
    ensures Settled(Next(s, e).invs, Next(s, e).names, key, from, file)
  {
    if e.Step? {
      hide Settled, Moved, NamesAfter, Allowed;
      ActionKeepsSettled(s, e.i, e.action, key, from, file);
    } else {
    }
  }

  lemma {:induction false} RunKeepsSettled(s: State, es: seq<Event>, t: State, key: string, from: nat, file: nat)
    requires Settled(s.invs, s.names, key, from, file) && Untampered(es) && Runs(s, es, t)
    ensures Settled(t.invs, t.names, key, from, file)
    decreases |es|
  {
    hide Settled, Enabled, Next;
    if es != [] {
      StepKeepsSettled(s, es[0], key, from, file);
      RunKeepsSettled(Next(s, es[0]), es[1..], t, key, from, file);
    }
  }

  // ---------------------------------------------------------------------------------------------
  // A file of more than one byte stays one
  // ---------------------------------------------------------------------------------------------

  predicate Overlong(sizes: map<nat, nat>, file: nat) {
    file in sizes && sizes[file] > 1
  }

  lemma ActionKeepsOverlong(sizes: map<nat, nat>, v: Inv, a: Action, file: nat)
    requires Overlong(sizes, file)
    ensures Overlong(SizesAfter(sizes, v, a), file)
  {
  }

  lemma StepKeepsOverlong(s: State, e: Event, file: nat)
    requires Overlong(s.sizes, file) && Enabled(s, e)
    ensures Overlong(Next(s, e).sizes, file)
  {
    match e
    case Step(i, a) =>
      hide Overlong, SizesAfter, HeldAfter, NamesAfter, FlockAfter, Moved, Allowed;
      ActionKeepsOverlong(s.sizes, s.invs[i], a, file);
    case _ =>
  }

  lemma {:induction false} RunKeepsOverlong(s: State, es: seq<Event>, t: State, file: nat)
    requires Overlong(s.sizes, file) && Runs(s, es, t)
    ensures Overlong(t.sizes, file)
    decreases |es|
  {
    hide Overlong, Enabled, Next;
    if es != [] {
      StepKeepsOverlong(s, es[0], file);
      RunKeepsOverlong(Next(s, es[0]), es[1..], t, file);
    }
  }

  // ---------------------------------------------------------------------------------------------
  // The condition
  // ---------------------------------------------------------------------------------------------

  /** The lock path is gone, or names a file that the owner has not locked and that may be a sentinel. */
  predicate Exposed(s: State, v: Inv) {
    v.key in s.names ==> !Named(v, s.names) && s.names[v.key] in s.sizes && s.sizes[s.names[v.key]] <= 1
  }

  lemma NobodyBeside(s: State, i: nat, es: seq<Event>, t: State, j: nat)
    requires Invariant(s) && i in s.invs && s.invs[i].pc.Critical? && Beside(s, i, es, t, j)
    ensures Exposed(s, s.invs[i])
  {
    hide Invariant, Runs, Untampered;
    var key := s.invs[i].key;
    if key in s.names {
      var file := s.names[key];
      RunKeeps(s, es, t);
      Standing(s, i);
      AllBelow(s);
      assert Settled(s.invs, s.names, key, s.nextInv, file);
      RunKeepsSettled(s, es, t, key, s.nextInv, file);
      assert Phase(t.invs[j]) && t.invs[j].fd == Some(file) by {
        Standing(t, j);
      }
      OtherFile(t, i, j);
      if Overlong(s.sizes, file) {
        RunKeepsOverlong(s, es, t, file);
        Standing(t, j);
        assert false;
      }
    }
  }

  lemma AllBelow(s: State)
    requires Invariant(s)
    ensures forall j | j in s.invs :: j < s.nextInv
    ensures forall key | key in s.names :: s.names[key] in s.sizes
  {
  }

  lemma OtherFile(t: State, i: nat, j: nat)
    requires Invariant(t) && i in t.invs && j in t.invs && i != j && t.invs[i].pc.Critical? && t.invs[j].pc.Critical?
    ensures t.invs[i].fd.Some? && t.invs[j].fd.Some? && t.invs[i].fd != t.invs[j].fd
  {
    hide Invariant;
    Standing(t, i);
    Standing(t, j);
  }

  lemma {:induction false} Above(numbers: set<nat>) returns (bound: nat)
    ensures forall x | x in numbers :: x < bound
    decreases |numbers|
  {
    if numbers == {} {
      bound := 0;
    } else {
      var x :| x in numbers;
      var rest := Above(numbers - {x});
      bound := if x < rest then rest else x + 1;
      assert forall y | y in numbers :: y == x || y in numbers - {x};
    }
  }

  /** The file that a rival is going to lock. */
  lemma RivalFile(s: State, v: Inv) returns (file: nat)
    requires Invariant(s) && Exposed(s, v)
    ensures Opens(s, v.key, file)
    ensures if v.key in s.names then file == s.names[v.key] else file !in s.flock
  {
    AllBelow(s);
    if v.key in s.names {
      file := s.names[v.key];
    } else {
      file := Above(s.sizes.Keys + s.flock.Keys);
    }
  }

  /** The crash of a process leaves none of its activations, table entries and locks, and touches no other's. */
  lemma CrashFrees(s: State, pid: nat, key: string, i: nat)
    requires i in s.invs && s.invs[i].thread.pid != pid
    ensures var m := CrashStep(s, pid);
            && i in m.invs && m.invs[i] == s.invs[i] && Slot(pid, key) !in m.table
            && (forall k | k in m.invs :: m.invs[k].thread != Thread(pid, 0))
            && (forall file | file in m.flock :: file in s.flock && s.flock[file].pid != pid)
            && m.names == s.names && m.sizes == s.sizes && m.nextInv == s.nextInv
  {
  }

  lemma RunsCrash(s: State, pid: nat)
    ensures Runs(s, [Crash(pid)], CrashStep(s, pid))
  {
    assert Runs(s, [], s);
    RunsOneMore(s, [], s, Crash(pid));
    assert [] + [Crash(pid)] == [Crash(pid)];
  }

  /** A second process, after a crash that gives up its locks, goes through the exposed path into its body. */
  lemma RivalEnters(s: State, i: nat) returns (es: seq<Event>, t: State, j: nat)
    requires Invariant(s) && i in s.invs && i < s.nextInv && Exposed(s, s.invs[i])
    requires var v := s.invs[i];
             v.key in s.names && s.names[v.key] in s.flock ==> s.flock[s.names[v.key]].pid != v.thread.pid
    ensures Beside(s, i, es, t, j)
  {
    hide Runs, Invariant, Adds, Exposed, Opens, CrashStep, Untampered;
    var v := s.invs[i];
    var file := RivalFile(s, v);
    var pid := if file in s.flock then s.flock[file].pid else v.thread.pid + 1;
    var m := CrashStep(s, pid);
    CrashFrees(s, pid, v.key, i);
    RunsCrash(s, pid);
    SameFile(s, m, v.key, file);
    es, t := EntersAlone(s, [Crash(pid)], m, Thread(pid, 0), v.key, file);
    j := s.nextInv;
    StaysUntampered(es, Crash(pid), j);
  }

  lemma SameFile(s: State, m: State, key: string, file: nat)
    requires Opens(s, key, file) && m.names == s.names && m.sizes == s.sizes
    ensures Opens(m, key, file)
  {
  }

  lemma StaysUntampered(es: seq<Event>, e: Event, j: nat)
    requires e.Crash? && Adds([e], es, j)
    ensures Untampered(es)
  {
    assert es[0] == [e][0];
  }

  /** After whatever happened before, with nobody tampering from now on: a second owner can enter beside one that is inside
      only if the lock path is gone or names another file of at most one byte; and then it can, unless that file is locked by
      the owner's own process, which cannot crash alone. */
  lemma SecondOwnerExactly(run: seq<Event>, s: State, i: nat)
    requires Runs(Initial, run, s) && i in s.invs && s.invs[i].pc.Critical?
    ensures (exists es, t, j :: Beside(s, i, es, t, j)) ==> Exposed(s, s.invs[i])
    ensures var v := s.invs[i];
            (v.key in s.names && s.names[v.key] in s.flock ==> s.flock[s.names[v.key]].pid != v.thread.pid) ==>
              (Exposed(s, v) <==> exists es, t, j :: Beside(s, i, es, t, j))
  {
    hide Invariant, Exposed, Beside;
    Reachable(run, s);
    if es, t, j :| Beside(s, i, es, t, j) {
      NobodyBeside(s, i, es, t, j);
    }
    var v := s.invs[i];
    if Exposed(s, v) && (v.key in s.names && s.names[v.key] in s.flock ==> s.flock[s.names[v.key]].pid != v.thread.pid) {
      Standing(s, i);
      var es, t, j := RivalEnters(s, i);
    }
  }
}
