/** Publishing a complete candidate over the configuration file, with every system call allowed to fail
    and other programs allowed to touch the file in between. */
module Publish {
  import opened Wrappers

  /** How a publication fails: the lock path was lost, the outcome could not be read back, the target
      holds somebody else's content, or the error of a system call is passed on as it is. */
  datatype Code = LockLost | Unclassified | Changed | Raised

  /** What an interrupted replacement turned out to have done. */
  datatype Verdict = Replaced | Untouched | Foreign

  /** Compare what the target holds now with the candidate first, then with what it held before. */
  function Classify(observed: Option<string>, candidate: string, expected: Option<string>): Verdict {
    if observed == Some(candidate) then Replaced
    else if observed == expected then Untouched
    else Foreign
  }

  /** What other programs do to the target between two of our system calls. */
  datatype Meddling = Keep | Becomes(content: Option<string>)

  function After(content: Option<string>, m: Meddling): Option<string> {
    if m.Becomes? then m.content else content
  }

  datatype Swap = Done | RaisesBefore | RaisesAfter

  /** One complete schedule of failures and interference around a publication. */
  datatype Schedule = Schedule(
    tempFails: bool,
    lockLostFirst: bool,
    beforeRead: Meddling,
    readFails: bool,
    beforeSwap: Meddling,
    swap: Swap,
    lockLostAgain: bool,
    beforeVerdict: Meddling,
    verdictFails: bool,
    unlinkFails: bool)

  /** The publication gets as far as replacing the target. */
  predicate Attempts(content: Option<string>, expected: Option<string>, w: Schedule) {
    !w.tempFails && !w.lockLostFirst && !w.readFails && After(content, w.beforeRead) == expected
  }

  class ConfigFile {
    var target: Option<string>
    var temp: Option<string>

    constructor (content: Option<string>)
      ensures target == content && temp == None
    {
      target, temp := content, None;
    }

    method Meddle(m: Meddling)
      modifies this`target
      ensures target == After(old(target), m)
    {
      if m.Becomes? {
        target := m.content;
      }
    }

    /** Classify an interrupted replacement; `Ok(true)` means the candidate is in place. */
    method CandidateIsCurrent(candidate: string, expected: Option<string>, lockLost: bool, m: Meddling, readFails: bool)
      returns (r: Result<bool, Code>)
      modifies this`target
      ensures lockLost ==> r == Err(LockLost) && target == old(target)
      ensures !lockLost ==> target == After(old(target), m)
      ensures !lockLost && readFails ==> r == Err(Unclassified)
      ensures !lockLost && !readFails ==>
                && (r == Ok(true) <==> target == Some(candidate))
                && (r == Ok(false) <==> target == expected && target != Some(candidate))
                && (r == Err(Changed) <==> target != Some(candidate) && target != expected)
    {
      if lockLost {
        return Err(LockLost);
      }
      Meddle(m);
      if readFails {
        return Err(Unclassified);
      }
      match Classify(target, candidate, expected)
      case Replaced => r := Ok(true);
      case Untouched => r := Ok(false);
      case Foreign => r := Err(Changed);
    }

    /** Write the candidate beside the target, check the target still holds what was read, and swap. */
    method Swapped(candidate: string, expected: Option<string>, w: Schedule) returns (r: Result<(), Code>)
      requires temp == None
      modifies this
      ensures temp == None || temp == Some(candidate)
      ensures r.Ok? ==> Attempts(old(target), expected, w) && target == Some(candidate)
      ensures !Attempts(old(target), expected, w) ==>
                r.Err? && (target == old(target) || target == After(old(target), w.beforeRead))
      ensures Attempts(old(target), expected, w) && w.swap.Done? ==> r.Ok? && temp == None
      ensures Attempts(old(target), expected, w) && !w.swap.Done? && !w.lockLostAgain && !w.verdictFails ==>
                && (r.Ok? <==> target == Some(candidate))
                && (r == Err(Raised) <==> target == expected && target != Some(candidate))
                && (r == Err(Changed) <==> target != Some(candidate) && target != expected)
      ensures Attempts(old(target), expected, w) && !w.swap.Done? && (w.lockLostAgain || w.verdictFails) ==>
                r == Err(LockLost) || r == Err(Unclassified)
      ensures w.tempFails ==> r == Err(Raised) && target == old(target) && temp == None
      ensures !w.tempFails && w.lockLostFirst ==> r == Err(LockLost) && target == old(target) && temp.Some?
      ensures !w.tempFails && !w.lockLostFirst ==>
                var found := After(old(target), w.beforeRead);
                && (w.readFails ==> r == Err(Raised) && target == found && temp.Some?)
                && (!w.readFails && found != expected ==> r == Err(Changed) && target == found && temp.Some?)
                && (!w.readFails && found == expected && w.swap.Done? ==> r.Ok? && target == Some(candidate) && temp == None)
                && (!w.readFails && found == expected && !w.swap.Done? ==>
                      var left := if w.swap.RaisesAfter? then Some(candidate) else After(found, w.beforeSwap);
                      && (temp.Some? <==> w.swap.RaisesBefore?)
                      && target == (if w.lockLostAgain then left else After(left, w.beforeVerdict))
                      && r == if w.lockLostAgain then Err(LockLost)
                              else if w.verdictFails then Err(Unclassified)
                              else if target == Some(candidate) then Ok(())
                              else if target == expected then Err(Raised)
                              else Err(Changed))
    {
      if w.tempFails {
        return Err(Raised);
      }
      temp := Some(candidate);
      if w.lockLostFirst {
        return Err(LockLost);
      }
      Meddle(w.beforeRead);
      if w.readFails {
        return Err(Raised);
      }
      if target != expected {
        return Err(Changed);
      }
      Meddle(w.beforeSwap);
      if !w.swap.RaisesBefore? {
        target, temp := temp, None;
      }
      if w.swap.Done? {
        return Ok(());
      }
      var current := CandidateIsCurrent(candidate, expected, w.lockLostAgain, w.beforeVerdict, w.verdictFails);
      match current
      case Ok(inPlace) => r := if inPlace then Ok(()) else Err(Raised);
      case Err(code) => r := Err(code);
    }

    /** The whole publication. Returning normally means the target holds the candidate; an error that is
        passed on from an interrupted swap means it still holds what was read; any third content is reported
        as a change; and the temporary file is gone unless removing it failed. */
    method AtomicReplace(candidate: string, expected: Option<string>, w: Schedule) returns (r: Result<(), Code>)
      requires temp == None
      modifies this
      ensures r.Ok? ==> target == Some(candidate) && temp == None
      ensures Attempts(old(target), expected, w) && !w.swap.Done? && !w.lockLostAgain && !w.verdictFails && !w.unlinkFails ==>
                && (r.Ok? <==> target == Some(candidate))
                && (r == Err(Raised) <==> target == expected && target != Some(candidate))
                && (r == Err(Changed) <==> target != Some(candidate) && target != expected)
      ensures Attempts(old(target), expected, w) && w.swap.Done? ==> r.Ok?
      ensures !Attempts(old(target), expected, w) ==>
                r.Err? && (target == old(target) || target == After(old(target), w.beforeRead))
      ensures !w.unlinkFails ==> temp == None
      ensures temp.Some? ==> r == Err(Raised)
      ensures w.tempFails ==> r == Err(Raised) && target == old(target) && temp == None
      ensures !w.tempFails && w.lockLostFirst ==> r == Err(if w.unlinkFails then Raised else LockLost) && target == old(target)
      ensures !w.tempFails && !w.lockLostFirst ==>
                var found := After(old(target), w.beforeRead);
                && (w.readFails ==> r == Err(Raised) && target == found)
                && (!w.readFails && found != expected ==> r == Err(if w.unlinkFails then Raised else Changed) && target == found)
                && (!w.readFails && found == expected && w.swap.Done? ==> r.Ok? && target == Some(candidate) && temp == None)
                && (!w.readFails && found == expected && !w.swap.Done? ==>
                      var left := if w.swap.RaisesAfter? then Some(candidate) else After(found, w.beforeSwap);
                      && target == (if w.lockLostAgain then left else After(left, w.beforeVerdict))
                      && r == if w.swap.RaisesBefore? && w.unlinkFails then Err(Raised)
                              else if w.lockLostAgain then Err(LockLost)
                              else if w.verdictFails then Err(Unclassified)
                              else if target == Some(candidate) then Ok(())
                              else if target == expected then Err(Raised)
                              else Err(Changed))
    {
      r := Swapped(candidate, expected, w);
      if temp.Some? {
        if w.unlinkFails {
          return Err(Raised);
        }
        temp := None;
      }
    }
  }

  /** Left alone by other programs, the verdict tells exactly whether the interrupted swap took effect,
      except when the candidate was what the target already held and the difference does not matter. */
  lemma VerdictIsExact(content: Option<string>, candidate: string, raisedAfter: bool)
    ensures var observed := if raisedAfter then Some(candidate) else content;
            && Classify(observed, candidate, content) != Foreign
            && (Classify(observed, candidate, content) == Replaced <==> raisedAfter || content == Some(candidate))
  {
  }
}
