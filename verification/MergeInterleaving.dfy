/** Merges of guest links running side by side.

  A merge locks its link, points it at the target, looks whether the account it left is still
  referred to, and if not deletes that account if it is a shadow. Others' writes show once they
  are committed, and the lock on the link says nothing about the account. A delete waits for the
  merges that are pointing a link at the account, and then takes along every link that does. */
module MergeInterleaving {
  type Id = int

  datatype Phase =
    | Started
    | Locked(was: Id)
    /** The link is written, and its new account cannot be deleted any more. */
    | Repointed(was: Id)
    /** Whether the account left behind was found unreferenced. */
    | Checked(was: Id, alone: bool)

  datatype Merge = Merge(link: Id, target: Id, phase: Phase)

  datatype State = State(
    /** The accounts, and which of them are shadows. */
    accounts: map<Id, bool>,
    /** The account each link points at. */
    links: map<Id, Id>,
    locks: map<Id, Id>,
    running: map<Id, Merge>)

  datatype Step =
    | Arrive(link: Id, account: Id)
    | Begin(tx: Id, link: Id, target: Id)
    | LockLink(tx: Id)
    | Repoint(tx: Id)
    | Check(tx: Id)
    | Commit(tx: Id)
    | RollBack(tx: Id)

  predicate Referenced(links: map<Id, Id>, account: Id) {
    exists l :: l in links && links[l] == account
  }

  /** Whether the account would be left without links if the merge committed now. */
  predicate AloneNow(s: State, x: Merge, was: Id) {
    !Referenced(s.links[x.link := x.target], was)
  }

  /** The merge has written its link. */
  predicate HasWritten(x: Merge) {
    x.phase.Repointed? || x.phase.Checked?
  }

  predicate Deletes(s: State, x: Merge) {
    x.phase.Checked? && x.phase.alone && x.phase.was in s.accounts && s.accounts[x.phase.was]
  }

  /** Nobody is about to point a link at the account, and nobody else holds one that points there. */
  predicate MayDelete(s: State, tx: Id, account: Id) {
    && (forall o :: o in s.running && o != tx && HasWritten(s.running[o]) ==> s.running[o].target != account)
    && (forall l :: l in s.links && s.links[l] == account && l in s.locks ==> s.locks[l] == tx)
  }

  predicate Enabled(s: State, step: Step) {
    match step
    case Arrive(link, account) => link !in s.links && account !in s.accounts
    case Begin(tx, link, target) => tx !in s.running && target in s.accounts
    case LockLink(tx) =>
      && tx in s.running && s.running[tx].phase == Started
      && s.running[tx].link in s.links && s.running[tx].link !in s.locks
    case Repoint(tx) => tx in s.running && s.running[tx].phase.Locked? && s.running[tx].target in s.accounts
    case Check(tx) => tx in s.running && s.running[tx].phase.Repointed?
    case Commit(tx) =>
      && tx in s.running && s.running[tx].phase.Checked?
      && (Deletes(s, s.running[tx]) ==> MayDelete(s, tx, s.running[tx].phase.was))
    case RollBack(tx) => tx in s.running
  }

  function Entered(s: State, tx: Id, phase: Phase): State
    requires tx in s.running
  {
    s.(running := s.running[tx := s.running[tx].(phase := phase)])
  }

  function Ended(s: State, tx: Id): State {
    s.(running := s.running - {tx}, locks := map l | l in s.locks && s.locks[l] != tx :: s.locks[l])
  }

  /** What a merge leaves behind. */
  function Written(s: State, x: Merge): State {
    var links := s.links[x.link := x.target];
    if Deletes(s, x) then
      s.(accounts := s.accounts - {x.phase.was},
         links := map l | l in links && links[l] != x.phase.was :: links[l])
    else s.(links := links)
  }

  function Apply(s: State, step: Step): State
    requires Enabled(s, step)
  {
    match step
    case Arrive(link, account) => s.(accounts := s.accounts[account := true], links := s.links[link := account])
    case Begin(tx, link, target) => s.(running := s.running[tx := Merge(link, target, Started)])
    case LockLink(tx) =>
      var link := s.running[tx].link;
      Entered(s.(locks := s.locks[link := tx]), tx, Locked(s.links[link]))
    case Repoint(tx) => Entered(s, tx, Repointed(s.running[tx].phase.was))
    case Check(tx) =>
      var x := s.running[tx];
      Entered(s, tx, Checked(x.phase.was, AloneNow(s, x, x.phase.was)))
    case Commit(tx) => Ended(Written(s, s.running[tx]), tx)
    case RollBack(tx) => Ended(s, tx)
  }

  // ---------------------------------------------------------------------------
  // what holds in every run
  // ---------------------------------------------------------------------------

  ghost predicate Stands(s: State, tx: Id)
    requires tx in s.running
  {
    var x := s.running[tx];
    && (!x.phase.Started? ==>
          x.link in s.locks && s.locks[x.link] == tx && x.link in s.links && s.links[x.link] == x.phase.was)
    && (HasWritten(x) ==> x.target in s.accounts)
  }

  ghost predicate Inv(s: State) {
    && (forall l :: l in s.links ==> s.links[l] in s.accounts)
    && (forall tx :: tx in s.running ==> Stands(s, tx))
  }

  ghost predicate NoOrphans(s: State) {
    forall u :: u in s.accounts && s.accounts[u] ==> Referenced(s.links, u)
  }

  /** A run starts from sound tables, with nothing under way. */
  ghost predicate IsRun(states: seq<State>, steps: seq<Step>) {
    && |states| == |steps| + 1
    && states[0].locks == map[] && states[0].running == map[] && Inv(states[0]) && NoOrphans(states[0])
    && forall i {:trigger steps[i]} :: 0 <= i < |steps| ==> Follows(states[i], steps[i], states[i + 1])
  }

  ghost predicate Follows(s: State, step: Step, s': State) {
    Enabled(s, step) && s' == Apply(s, step)
  }

  lemma StepKeepsInv(s: State, step: Step)
    requires Inv(s) && Enabled(s, step)
    ensures Inv(Apply(s, step))
  {
    var s' := Apply(s, step);
    if step.Commit? {
      assert Stands(s, step.tx);
    }
    forall tx | tx in s'.running ensures Stands(s', tx) {
      if tx in s.running {
        assert Stands(s, tx);
      }
    }
  }

  lemma {:induction false} RunKeepsInv(states: seq<State>, steps: seq<Step>, n: nat)
    requires IsRun(states, steps) && n < |states|
    ensures Inv(states[n])
  {
    if n > 0 {
      RunKeepsInv(states, steps, n - 1);
      assert Follows(states[n - 1], steps[n - 1], states[n]);
      StepKeepsInv(states[n - 1], steps[n - 1]);
    }
  }

  // ---------------------------------------------------------------------------
  // which merges are sound
  // ---------------------------------------------------------------------------

  /** The step leaves no shadow without a link, and takes no link away. */
  ghost predicate Sound(s: State, s': State) {
    NoOrphans(s') && s.links.Keys <= s'.links.Keys
  }

  /** The commit of a merge that left a shadow, and whose answer about it is not true any more. */
  ghost predicate ActsOnStaleAnswer(s: State, step: Step) {
    && step.Commit? && step.tx in s.running && s.running[step.tx].phase.Checked?
    && var x := s.running[step.tx];
    && x.phase.was in s.accounts && s.accounts[x.phase.was]
    && x.phase.alone != AloneNow(s, x, x.phase.was)
  }

  /** A merge is sound exactly if what it found out about the shadow it left is still true at its commit. */
  lemma CommitIsSoundExactly(s: State, tx: Id)
    requires Inv(s) && NoOrphans(s) && Enabled(s, Commit(tx))
    ensures Sound(s, Apply(s, Commit(tx))) <==> !ActsOnStaleAnswer(s, Commit(tx))
  {
    var x, s' := s.running[tx], Apply(s, Commit(tx));
    var was, links := x.phase.was, s.links[x.link := x.target];
    assert Stands(s, tx);
    forall u | u in s'.accounts && s'.accounts[u] && u != was ensures Referenced(s'.links, u) {
      var l :| l in s.links && s.links[l] == u;
      assert l != x.link && s'.links[l] == u;
    }
    if Deletes(s, x) {
      if Referenced(links, was) {
        var l :| l in links && links[l] == was;
        assert l in s.links && l !in s'.links;
      } else {
        forall l | l in s.links ensures l in s'.links {
          assert l in links && links[l] != was;
        }
      }
    } else if s.accounts[was] {
      assert was in s'.accounts && s'.links == links;
    }
  }

  /** The account is a shadow, and the link is the only one that points at it. */
  predicate OnlyKeptBy(s: State, account: Id, link: Id) {
    && account in s.accounts && s.accounts[account]
    && forall l :: l in s.links && s.links[l] == account ==> l == link
  }

  /** A merge does what it would do alone at its commit exactly if its answer is still true: it points its link
    at the target and no other, and deletes the account left behind if only this link kept it. */
  lemma CommitIsSerialExactly(s: State, tx: Id)
    requires Inv(s) && NoOrphans(s) && Enabled(s, Commit(tx))
    ensures var x, s' := s.running[tx], Apply(s, Commit(tx));
            !ActsOnStaleAnswer(s, Commit(tx)) <==>
            && s'.links.Keys == s.links.Keys && s'.links[x.link] == x.target
            && (forall l :: l in s.links && l != x.link ==> s'.links[l] == s.links[l])
            && (forall u :: u in s'.accounts <==>
                              && u in s.accounts
                              && !(u == s.links[x.link] && u != x.target && OnlyKeptBy(s, u, x.link)))
            && (forall u :: u in s'.accounts ==> s'.accounts[u] == s.accounts[u])
  {
    var x := s.running[tx];
    var was := x.phase.was;
    assert Stands(s, tx) && s.links[x.link] == was;
    if s.accounts[was] {
      LeftBehind(s, x, was);
    }
    CommitIsSoundExactly(s, tx);
  }

  lemma LeftBehind(s: State, x: Merge, was: Id)
    requires x.link in s.links && was in s.accounts && s.accounts[was]
    ensures AloneNow(s, x, was) <==> was != x.target && OnlyKeptBy(s, was, x.link)
  {
    var links := s.links[x.link := x.target];
    assert x.target == was ==> links[x.link] == was;
    forall l | l in s.links && s.links[l] == was && l != x.link ensures Referenced(links, was) {
      assert links[l] == was;
    }
  }

  lemma OtherStepsAreSound(s: State, step: Step)
    requires Inv(s) && NoOrphans(s) && Enabled(s, step) && !step.Commit?
    ensures Sound(s, Apply(s, step))
  {
    var s' := Apply(s, step);
    forall u | u in s'.accounts && s'.accounts[u] ensures Referenced(s'.links, u) {
      if u in s.accounts {
        var l :| l in s.links && s.links[l] == u;
        assert s'.links[l] == u;
      } else {
        assert s'.links[step.link] == u;
      }
    }
  }

  ghost predicate AllSound(states: seq<State>, n: nat)
    requires n < |states|
  {
    forall i {:trigger Sound(states[i], states[i + 1])} :: 0 <= i < n ==> Sound(states[i], states[i + 1])
  }

  ghost predicate NothingStale(states: seq<State>, steps: seq<Step>, n: nat)
    requires n <= |steps| && n <= |states|
  {
    forall c :: 0 <= c < n ==> !ActsOnStaleAnswer(states[c], steps[c])
  }

  lemma NextIsSoundExactly(states: seq<State>, steps: seq<Step>, n: nat)
    requires IsRun(states, steps) && n < |steps| && NoOrphans(states[n])
    ensures Sound(states[n], states[n + 1]) <==> !ActsOnStaleAnswer(states[n], steps[n])
  {
    RunKeepsInv(states, steps, n);
    assert Follows(states[n], steps[n], states[n + 1]);
    if steps[n].Commit? {
      CommitIsSoundExactly(states[n], steps[n].tx);
    } else {
      OtherStepsAreSound(states[n], steps[n]);
    }
  }

  lemma OneMore(states: seq<State>, steps: seq<Step>, n: nat)
    requires n + 1 < |states| && n < |steps|
    ensures AllSound(states, n + 1) <==> AllSound(states, n) && Sound(states[n], states[n + 1])
    ensures NothingStale(states, steps, n + 1) <==>
            NothingStale(states, steps, n) && !ActsOnStaleAnswer(states[n], steps[n])
  {
    forall i | 0 <= i < n + 1 && AllSound(states, n) && Sound(states[n], states[n + 1])
      ensures Sound(states[i], states[i + 1])
    {
      if i < n {
        assert Sound(states[i], states[i + 1]);
      }
    }
  }

  /** In any run no shadow is ever orphaned and no link ever lost exactly if no merge commits on an answer
    that has become stale. */
  lemma {:induction false} MergesAreSoundExactly(states: seq<State>, steps: seq<Step>, n: nat)
    requires IsRun(states, steps) && n < |states|
    ensures AllSound(states, n) <==> NothingStale(states, steps, n)
    ensures AllSound(states, n) ==> NoOrphans(states[n])
  {
    if n > 0 {
      MergesAreSoundExactly(states, steps, n - 1);
      OneMore(states, steps, n - 1);
      if AllSound(states, n - 1) {
        NextIsSoundExactly(states, steps, n - 1);
      }
    }
  }

  lemma SameReferences(a: map<Id, Id>, b: map<Id, Id>, account: Id)
    requires forall l :: (l in a && a[l] == account) <==> (l in b && b[l] == account)
    ensures Referenced(a, account) <==> Referenced(b, account)
  {
    if Referenced(a, account) {
      var l :| l in a && a[l] == account;
      assert l in b && b[l] == account;
    }
    if Referenced(b, account) {
      var l :| l in b && b[l] == account;
      assert l in a && a[l] == account;
    }
  }

  /** An answer becomes stale only by another merge that commits a link onto the account, or off it. */
  lemma AnswersChangeByMerges(s: State, step: Step, tx: Id)
    requires Inv(s) && Enabled(s, step) && tx in s.running && s.running[tx].phase.Checked?
    requires tx in Apply(s, step).running
    ensures var x, was := s.running[tx], s.running[tx].phase.was;
            AloneNow(s, x, was) == AloneNow(Apply(s, step), x, was)
            || (step.Commit? && step.tx != tx
                && (s.running[step.tx].target == was || s.running[step.tx].phase.was == was))
  {
    var x, s' := s.running[tx], Apply(s, step);
    var was := x.phase.was;
    assert Stands(s, tx);
    if step.Commit? {
      assert Stands(s, step.tx);
    }
    if step.Arrive? || (step.Commit? && s.running[step.tx].target != was && s.running[step.tx].phase.was != was) {
      SameReferences(s.links[x.link := x.target], s'.links[x.link := x.target], was);
    }
  }

  // ---------------------------------------------------------------------------
  // two runs
  // ---------------------------------------------------------------------------

  lemma Stepped(states: seq<State>, steps: seq<Step>, step: Step)
    returns (states': seq<State>, steps': seq<Step>)
    requires IsRun(states, steps) && Enabled(states[|steps|], step)
    ensures IsRun(states', steps') && |steps'| == |steps| + 1 && states'[0] == states[0]
    ensures states'[|steps'|] == Apply(states[|steps|], step)
  {
    states', steps' := states + [Apply(states[|steps|], step)], steps + [step];
    forall i {:trigger steps'[i]} | 0 <= i < |steps'| ensures Follows(states'[i], steps'[i], states'[i + 1]) {
      if i < |steps| {
        assert Follows(states[i], steps[i], states[i + 1]);
      }
    }
  }

  /** A merge as far as its check. */
  lemma UpToCheck(states: seq<State>, steps: seq<Step>, tx: Id, link: Id, target: Id)
    returns (states': seq<State>, steps': seq<Step>)
    requires IsRun(states, steps)
    requires var s := states[|steps|]; tx !in s.running && target in s.accounts && link in s.links && link !in s.locks
    ensures IsRun(states', steps') && states'[0] == states[0]
    ensures var s := states[|steps|];
            var was := s.links[link];
            states'[|steps'|] == s.(locks := s.locks[link := tx],
                                    running := s.running[tx := Merge(link, target,
                                                 Checked(was, AloneNow(s, Merge(link, target, Started), was)))])
  {
    states', steps' := Stepped(states, steps, Begin(tx, link, target));
    states', steps' := Stepped(states', steps', LockLink(tx));
    states', steps' := Stepped(states', steps', Repoint(tx));
    states', steps' := Stepped(states', steps', Check(tx));
  }

  /** Two links share a shadow, and both leave it: each still sees the other's. The shadow is orphaned. */
  lemma SharedShadowIsOrphaned() returns (states: seq<State>, steps: seq<Step>)
    ensures IsRun(states, steps)
    ensures states[0] == State(map[1 := true, 2 := false], map[10 := 1, 11 := 1], map[], map[])
    ensures states[|steps|].accounts == states[0].accounts && states[|steps|].links == map[10 := 2, 11 := 2]
    ensures !NoOrphans(states[|steps|])
  {
    var s0 := State(map[1 := true, 2 := false], map[10 := 1, 11 := 1], map[], map[]);
    assert s0.links[10] == 1;
    states, steps := [s0], [];
    states, steps := UpToCheck(states, steps, 1, 10, 2);
    assert s0.links[10 := 2][11] == 1;
    states, steps := UpToCheck(states, steps, 2, 11, 2);
    assert s0.links[11 := 2][10] == 1;
    states, steps := Stepped(states, steps, Commit(1));
    states, steps := Stepped(states, steps, Commit(2));
    assert !Referenced(states[|steps|].links, 1);
  }

  /** One link leaves a shadow, and finds it unreferenced; another one is merged onto it meanwhile, and
    goes down with it. */
  lemma FreshlyMergedLinkIsLost() returns (states: seq<State>, steps: seq<Step>)
    ensures IsRun(states, steps)
    ensures states[0] == State(map[1 := true, 2 := false, 3 := false], map[10 := 1, 11 := 3], map[], map[])
    ensures states[|steps|].links == map[10 := 2]
  {
    var s0 := State(map[1 := true, 2 := false, 3 := false], map[10 := 1, 11 := 3], map[], map[]);
    assert s0.links[10] == 1;
    states, steps := [s0], [];
    states, steps := UpToCheck(states, steps, 1, 10, 2);
    states, steps := UpToCheck(states, steps, 2, 11, 1);
    states, steps := Stepped(states, steps, Commit(2));
    states, steps := Stepped(states, steps, Commit(1));
  }
}
