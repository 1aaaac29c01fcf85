/** What a writer's transaction can do at each stage, and that nothing in it keeps a writer from finishing. */
module ConfigProgress {
  import opened Wrappers
  import opened LockProtocol
  import Publish
  import opened ConfigStore

  /** Stage by stage: the steps that can be taken, and when the transaction can end. */
  lemma StagesExactly<E>(s: Store<E>, i: nat)
    requires i in s.txns && InBody(s.lock, i)
    ensures forall m :: Able(s, Turn(i, m)) <==>
              match s.txns[i].stage
              case Begun => m == CheckMain || m == GiveUp
              case MainChecked => m == Read || m == GiveUp
              case Edited => m == WriteTemp || m == GiveUp
              case Staged => m == Confirm || m == GiveUp
              case Confirmed => m.Swap?
              case Doubtful => m == ReadBack || m == LoseTrack
              case _ => false
    ensures forall removed :: Able(s, Finish(i, removed)) <==> s.txns[i].stage in {Published, Refused, Unknown}
  {
  }

  lemma OneActMore<E>(policy: Policy<E>, s: Store<E>, a: Act<E>, acts: seq<Act<E>>, t: Store<E>)
    requires Able(s, a) && Reaches(policy, Do(policy, s, a), acts, t)
    ensures Reaches(policy, s, [a] + acts, t)
  {
    hide Able, Do;
    assert ([a] + acts)[1..] == acts;
  }

  /** The transaction at one stage, everything else being as it was. */
  ghost function At<E>(s: Store<E>, i: nat, x: Txn<E>): Store<E> {
    s.(txns := s.txns[i := x])
  }

  /** The last three steps: the comparison with what was read, the replacement, and the end. */
  lemma Publishes<E>(policy: Policy<E>, s: Store<E>, i: nat, x: Txn<E>) returns (acts: seq<Act<E>>, t: Store<E>)
    requires i in s.txns && s.txns[i] == x && InBody(s.lock, i) && x.stage == Staged && Content(s.files, x.req.path) == x.existing
    ensures Reaches(policy, s, acts, t)
    ensures t == Store(s.lock, s.files[x.req.path := x.candidate], s.temps - {i}, s.txns - {i}, s.reports[i := Committed],
                       s.log + [Commit(i, x.req)])
  {
    hide InBody;
    var confirmed := Do(policy, s, Turn(i, Confirm));
    assert confirmed == At(s, i, x.(stage := Confirmed));
    var swapped := Do(policy, confirmed, Turn(i, Swap(Publish.Done)));
    assert swapped == Store(s.lock, s.files[x.req.path := x.candidate], s.temps - {i}, s.txns[i := x.(stage := Published, took := true)],
                            s.reports, s.log + [Commit(i, x.req)]);
    t := Do(policy, swapped, Finish(i, true));
    assert Reaches(policy, t, [], t);
    hide Able, Do, Reaches;
    OneActMore(policy, swapped, Finish(i, true), [], t);
    OneActMore(policy, confirmed, Turn(i, Swap(Publish.Done)), [Finish(i, true)] + [], t);
    acts := [Turn(i, Confirm)] + ([Turn(i, Swap(Publish.Done))] + ([Finish(i, true)] + []));
    OneActMore(policy, s, Turn(i, Confirm), [Turn(i, Swap(Publish.Done))] + ([Finish(i, true)] + []), t);
  }

  /** A writer inside the body of its vault's lock whose main configuration meets its expectation, and whose edit gives a
      candidate, can write it, with nothing else changed; it then reports success, and its edit is on record. */
  lemma CanCommit<E>(policy: Policy<E>, s: Store<E>, i: nat, req: Request<E>) returns (acts: seq<Act<E>>, t: Store<E>)
    requires InBody(s.lock, i) && i !in s.txns && i !in s.reports && i !in s.temps && req.path.root == s.lock.invs[i].key
    requires policy.mainHolds(req.edit, Content(s.files, MainPath(req.path)))
    requires policy.candidate(req.edit, Content(s.files, req.path)).Some?
    ensures Reaches(policy, s, acts, t)
    ensures t == Store(s.lock, s.files[req.path := policy.candidate(req.edit, Content(s.files, req.path)).value], s.temps, s.txns,
                       s.reports[i := Committed], s.log + [Commit(i, req)])
  {
    var existing := Content(s.files, req.path);
    var x := Txn(req, Begun, None, "", false);
    var edited := x.(stage := Edited, existing := existing, candidate := policy.candidate(req.edit, existing).value);
    var begun, checked, read := At(s, i, x), At(s, i, x.(stage := MainChecked)), At(s, i, edited);
    var staged := At(s, i, edited.(stage := Staged)).(temps := s.temps + {i});
    Begins(policy, s, i, req);
    Reads(policy, s, i, req);
    WritesTemp(policy, s, i, edited);
    hide InBody, Able, Do, Reaches;
    acts, t := Publishes(policy, staged, i, edited.(stage := Staged));
    OneActMore(policy, read, Turn(i, WriteTemp), acts, t);
    acts := [Turn(i, WriteTemp)] + acts;
    OneActMore(policy, checked, Turn(i, Read), acts, t);
    acts := [Turn(i, Read)] + acts;
    OneActMore(policy, begun, Turn(i, CheckMain), acts, t);
    acts := [Turn(i, CheckMain)] + acts;
    OneActMore(policy, s, Begin(i, req), acts, t);
    acts := [Begin(i, req)] + acts;
    assert s.txns[i := edited.(stage := Staged)] - {i} == s.txns;
    assert s.temps + {i} - {i} == s.temps;
  }

  lemma Begins<E>(policy: Policy<E>, s: Store<E>, i: nat, req: Request<E>)
    requires InBody(s.lock, i) && i !in s.txns && i !in s.reports && req.path.root == s.lock.invs[i].key
    requires policy.mainHolds(req.edit, Content(s.files, MainPath(req.path)))
    ensures var x := Txn(req, Begun, None, "", false);
            var begun := At(s, i, x);
            && Able(s, Begin(i, req)) && Do(policy, s, Begin(i, req)) == begun
            && Able(begun, Turn(i, CheckMain)) && Do(policy, begun, Turn(i, CheckMain)) == At(s, i, x.(stage := MainChecked))
  {
    hide InBody;
  }

  lemma Reads<E>(policy: Policy<E>, s: Store<E>, i: nat, req: Request<E>)
    requires InBody(s.lock, i) && policy.candidate(req.edit, Content(s.files, req.path)).Some?
    ensures var checked := At(s, i, Txn(req, MainChecked, None, "", false));
            var existing := Content(s.files, req.path);
            && Able(checked, Turn(i, Read))
            && Do(policy, checked, Turn(i, Read))
               == At(s, i, Txn(req, Edited, existing, policy.candidate(req.edit, existing).value, false))
  {
    hide InBody;
  }

  lemma WritesTemp<E>(policy: Policy<E>, s: Store<E>, i: nat, x: Txn<E>)
    requires InBody(s.lock, i) && x.stage == Edited
    ensures var read := At(s, i, x);
            && Able(read, Turn(i, WriteTemp))
            && Do(policy, read, Turn(i, WriteTemp)) == At(s, i, x.(stage := Staged)).(temps := s.temps + {i})
  {
    hide InBody;
  }
}
