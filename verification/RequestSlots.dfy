/** The server that bounds its request threads with a semaphore. */
module RequestSlots {

  /** Where one accepted request stands. The accept loop takes the slot, then starts the thread that gives it back. */
  datatype Phase = Holding | Running | Ended | NotStarted

  /** `free` is the semaphore; `releases` counts how often each request's slot was given back. */
  datatype Server = Server(max: nat, free: int, requests: seq<Phase>, releases: seq<nat>)

  datatype Event = Acquire | StartThread | StartFails | HandlerEnds(k: nat)

  predicate Accepting(s: Server) {
    s.requests == [] || s.requests[|s.requests| - 1] != Holding
  }

  /** The accept loop handles one request at a time; the handlers of started requests end in any order, by
      returning or by raising. */
  predicate Enabled(s: Server, e: Event) {
    |s.releases| == |s.requests| &&
    match e
    case Acquire => Accepting(s) && s.free > 0
    case StartThread => !Accepting(s)
    case StartFails => !Accepting(s)
    case HandlerEnds(k) => k < |s.requests| && s.requests[k] == Running
  }

  function Released(s: Server, k: nat, phase: Phase): Server
    requires k < |s.requests| == |s.releases|
  {
    Server(s.max, s.free + 1, s.requests[k := phase], s.releases[k := s.releases[k] + 1])
  }

  function Next(s: Server, e: Event): Server
    requires Enabled(s, e)
  {
    match e
    case Acquire => Server(s.max, s.free - 1, s.requests + [Holding], s.releases + [0])
    case StartThread => s.(requests := s.requests[|s.requests| - 1 := Running])
    case StartFails => Released(s, |s.requests| - 1, NotStarted)
    case HandlerEnds(k) => Released(s, k, Ended)
  }

  predicate Runs(s: Server, events: seq<Event>, t: Server)
    decreases |events|
  {
    if events == [] then s == t else Enabled(s, events[0]) && Runs(Next(s, events[0]), events[1..], t)
  }

  function Fresh(max: nat): Server {
    Server(max, max, [], [])
  }

  function Count(requests: seq<Phase>, phase: Phase): nat {
    if requests == [] then 0
    else Count(requests[..|requests| - 1], phase) + if requests[|requests| - 1] == phase then 1 else 0
  }

  ghost predicate Conserved(s: Server) {
    && s.free >= 0
    && s.free + Count(s.requests, Running) + Count(s.requests, Holding) == s.max
    && |s.releases| == |s.requests|
    && (forall k | 0 <= k < |s.requests| - 1 :: s.requests[k] != Holding)
    && forall k | 0 <= k < |s.requests| :: s.releases[k] == if s.requests[k] == Running || s.requests[k] == Holding then 0 else 1
  }

  lemma {:induction false} CountUpdate(requests: seq<Phase>, k: nat, to: Phase, phase: Phase)
    requires k < |requests|
    ensures Count(requests[k := to], phase)
         == Count(requests, phase) + (if to == phase then 1 else 0) - (if requests[k] == phase then 1 else 0)
    decreases |requests|
  {
    var n := |requests| - 1;
    if k < n {
      CountUpdate(requests[..n], k, to, phase);
      assert requests[k := to][..n] == requests[..n][k := to];
    } else {
      assert requests[k := to][..n] == requests[..n];
    }
  }

  lemma {:induction false} CountNone(requests: seq<Phase>, phase: Phase)
    requires forall k | 0 <= k < |requests| :: requests[k] != phase
    ensures Count(requests, phase) == 0
    decreases |requests|
  {
    if requests != [] {
      CountNone(requests[..|requests| - 1], phase);
    }
  }

  lemma CountMore(requests: seq<Phase>, last: Phase, phase: Phase)
    ensures Count(requests + [last], phase) == Count(requests, phase) + if last == phase then 1 else 0
  {
    assert (requests + [last])[..|requests|] == requests;
  }

  lemma ReleaseConserves(s: Server, k: nat, phase: Phase)
    requires Conserved(s) && k < |s.requests| && (s.requests[k] == Running || s.requests[k] == Holding)
    requires phase == Ended || phase == NotStarted
    ensures Conserved(Released(s, k, phase)) && Released(s, k, phase).max == s.max
  {
    hide Count;
    CountUpdate(s.requests, k, phase, Running);
    CountUpdate(s.requests, k, phase, Holding);
  }

  lemma StepConserves(s: Server, e: Event)
    requires Conserved(s) && Enabled(s, e)
    ensures Conserved(Next(s, e)) && Next(s, e).max == s.max
  {
    hide Count;
    match e
    case Acquire =>
      CountMore(s.requests, Holding, Running);
      CountMore(s.requests, Holding, Holding);
    case StartThread =>
      CountUpdate(s.requests, |s.requests| - 1, Running, Running);
      CountUpdate(s.requests, |s.requests| - 1, Running, Holding);
    case StartFails => ReleaseConserves(s, |s.requests| - 1, NotStarted);
    case HandlerEnds(k) => ReleaseConserves(s, k, Ended);
  }

  lemma {:induction false} RunConserves(s: Server, events: seq<Event>, t: Server)
    requires Conserved(s) && Runs(s, events, t)
    ensures Conserved(t) && t.max == s.max
    decreases |events|
  {
    hide Conserved, Enabled, Next;
    if events != [] {
      StepConserves(s, events[0]);
      RunConserves(Next(s, events[0]), events[1..], t);
    }
  }

  lemma HoldsAtMostOne(s: Server)
    requires Conserved(s)
    ensures Count(s.requests, Holding) == if Accepting(s) then 0 else 1
  {
    if s.requests != [] {
      CountNone(s.requests[..|s.requests| - 1], Holding);
    }
  }

  /** In every interleaving the slots taken are the live request threads and at most the one in the hands of the
      accept loop, there are never more live threads than allowed, and every slot is given back exactly once:
      when its thread ends, or when it could not be started. */
  lemma SlotsAreConserved(max: nat, events: seq<Event>, s: Server)
    requires Runs(Fresh(max), events, s)
    ensures max - s.free == Count(s.requests, Running) + (if Accepting(s) then 0 else 1)
    ensures 0 <= s.free <= max && Count(s.requests, Running) <= max
    ensures |s.releases| == |s.requests|
    ensures forall k | 0 <= k < |s.requests| :: s.releases[k] == if s.requests[k] == Ended || s.requests[k] == NotStarted then 1 else 0
  {
    RunConserves(Fresh(max), events, s);
    HoldsAtMostOne(s);
    assert forall k | 0 <= k < |s.requests| ::
             s.requests[k] == Ended || s.requests[k] == NotStarted || s.requests[k] == Running || s.requests[k] == Holding;
  }
}
