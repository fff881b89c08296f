/** Interleaved category transactions and requests that run one after the other.

  A commit that leaves a tree does to the table what its request, run alone there, would do.
  So a run in which no move commits over a late row is a run of whole requests, in the order
  of their commits, and no other run is. Conversely, a transaction that nobody stands in the
  way of goes through to the commit whenever its request, run alone, succeeds. */
module CategorySerialOrder {
  import opened CategoryPaths
  import opened CategoryTree
  import opened Wrappers
  import CI = CategoryInterleaving

  // ---------------------------------------------------------------------------
  // commits as requests
  // ---------------------------------------------------------------------------

  lemma CreateIsSerial(s: CI.State, tx: Id)
    requires CI.Inv(s) && Tree(s.rows) && CI.Enabled(s, CI.Commit(tx)) && s.running[tx].request.Create?
    ensures Apply(s.rows, s.running[tx].request) == Success(CI.Outcome(s.rows, s.running[tx]))
  {
    var t, x := s.rows, s.running[tx];
    var id, row := x.request.id, x.row.value;
    var t' := CI.Outcome(t, x);
    assert CI.Secured(s, tx, x) && CI.RowStands(s, tx, x);
    assert t'[id] == row && Accepted(t', id, t'[id]);
    forall other | other in t && other != id ensures !Clashes(t, id, other, row) {
      assert t'[other] == t[other] && !Clashes(t', id, other, row);
    }
  }

  lemma ParentStays(t: Table, gone: set<Id>, k: Id)
    requires CI.ParentsExist(Without(t, gone)) && k in t && k !in gone && t[k].parent.Some?
    ensures t[k].parent.value !in gone
  {
    assert Without(t, gone)[k] == t[k];
  }

  /** The foreign key makes a delete take along everything that reaches the category. */
  lemma {:induction false} TakenIsClosed(s: CI.State, tx: Id, k: Id, n: nat)
    requires CI.Inv(s) && Tree(s.rows) && CI.Enabled(s, CI.Commit(tx)) && s.running[tx].request.Delete?
    requires k in s.rows && Ancestor(s.rows, k, n) == Some(s.running[tx].request.id)
    ensures k in s.running[tx].taken
    decreases n
  {
    var x := s.running[tx];
    assert CI.Secured(s, tx, x);
    if n > 0 {
      TakenIsClosed(s, tx, s.rows[k].parent.value, n - 1);
      if k !in x.taken {
        ParentStays(s.rows, x.taken, k);
      }
    }
  }

  lemma DeleteIsSerial(s: CI.State, tx: Id)
    requires CI.Inv(s) && Tree(s.rows) && CI.Enabled(s, CI.Commit(tx)) && s.running[tx].request.Delete?
    ensures Apply(s.rows, s.running[tx].request) == Success(CI.Outcome(s.rows, s.running[tx]))
  {
    var t, x := s.rows, s.running[tx];
    var id := x.request.id;
    assert CI.Secured(s, tx, x);
    forall k ensures k in Subtree(t, id) <==> k in x.taken {
      if k in x.taken {
        assert CI.TakenStands(s, tx, x, k);
      }
      if k in Subtree(t, id) {
        SubtreeIsReachability(t, id, k);
        var n: nat :| Ancestor(t, k, n) == Some(id);
        TakenIsClosed(s, tx, k, n);
      }
    }
    assert Subtree(t, id) == x.taken;
  }

  lemma UpdateIsSerial(s: CI.State, tx: Id)
    requires CI.Inv(s) && Tree(s.rows) && CI.Enabled(s, CI.Commit(tx)) && s.running[tx].request.Update?
    requires Tree(CI.Outcome(s.rows, s.running[tx]))
    ensures Apply(s.rows, s.running[tx].request) == Success(CI.Outcome(s.rows, s.running[tx]))
  {
    var t, x := s.rows, s.running[tx];
    var id, row := x.request.id, x.row.value;
    CI.UpdateIsPartlyMoved(s, tx);
    CI.UpdateCommits(s, tx);
    CI.MovesChangePath(s, tx);
    assert CI.Secured(s, tx, x) && CI.RowStands(s, tx, x);
    PathsNonEmpty(t);
    MovedParentFits(t, id, CI.ParentOf(x));
    if CI.Moves(x) {
      CI.NothingBetween(Below(t, id), x.taken);
      assert CI.Missing(s, tx) == Below(t, id) - x.taken;
    } else {
      SamePathMovesNothing(t, id, row);
      CI.NothingRewritten(t, id, row);
    }
  }

  /** A commit that leaves a tree does what the request, run alone on the table it meets, would do. */
  lemma CommitIsSerial(s: CI.State, tx: Id)
    requires CI.Inv(s) && Tree(s.rows) && CI.Enabled(s, CI.Commit(tx))
    ensures Tree(CI.Outcome(s.rows, s.running[tx])) <==>
            Apply(s.rows, s.running[tx].request) == Success(CI.Outcome(s.rows, s.running[tx]))
    ensures Admissible(s.rows, s.running[tx].request)
  {
    assert CI.Secured(s, tx, s.running[tx]);
    RequestKeepsTree(s.rows, s.running[tx].request);
    match s.running[tx].request
    case Create(_, _, _, _, _) =>
      CreateIsSerial(s, tx);
    case Update(_, _, _, _) =>
      if Tree(CI.Outcome(s.rows, s.running[tx])) {
        UpdateIsSerial(s, tx);
      }
    case Delete(_) =>
      DeleteIsSerial(s, tx);
  }

  // ---------------------------------------------------------------------------
  // runs as sequences of requests
  // ---------------------------------------------------------------------------

  /** The requests that have committed, in the order of their commits. */
  ghost function Committed(states: seq<CI.State>, steps: seq<CI.Step>, n: nat): seq<Request>
    requires n < |states| && n <= |steps|
  {
    if n == 0 then []
    else
      var before := Committed(states, steps, n - 1);
      if steps[n - 1].Commit? && steps[n - 1].tx in states[n - 1].running
      then before + [states[n - 1].running[steps[n - 1].tx].request]
      else before
  }

  /** The table after requests run one after the other, if all of them succeed. */
  ghost function OneByOne(requests: seq<Request>): Option<Table> {
    if requests == [] then Some(map[])
    else
      var t, last := OneByOne(requests[..|requests| - 1]), requests[|requests| - 1];
      if t.Some? && Tree(t.value) && Apply(t.value, last).Success? then Some(Apply(t.value, last).value) else None
  }

  ghost predicate IsSerialAt(states: seq<CI.State>, steps: seq<CI.Step>, i: nat)
    requires i < |states| && i <= |steps|
  {
    OneByOne(Committed(states, steps, i)) == Some(states[i].rows)
  }

  ghost predicate IsSerial(states: seq<CI.State>, steps: seq<CI.Step>, n: nat)
    requires n < |states| && n <= |steps|
  {
    forall i :: 0 <= i <= n ==> IsSerialAt(states, steps, i)
  }

  lemma StepIsSerial(states: seq<CI.State>, steps: seq<CI.Step>, n: nat)
    requires CI.IsRun(states, steps) && 0 < n < |states|
    requires Tree(states[n - 1].rows) && IsSerialAt(states, steps, n - 1)
    ensures Tree(states[n].rows) <==> IsSerialAt(states, steps, n)
  {
    var s, step := states[n - 1], steps[n - 1];
    CI.RunKeepsInv(states, steps, n - 1);
    assert CI.Follows(s, step, states[n]);
    if step.Commit? {
      var before, request := Committed(states, steps, n - 1), s.running[step.tx].request;
      assert (before + [request])[..|before|] == before;
      CommitIsSerial(s, step.tx);
      RequestKeepsTree(s.rows, request);
    }
  }

  lemma OneMoreState(states: seq<CI.State>, steps: seq<CI.Step>, n: nat)
    requires 0 < n < |states| && n <= |steps|
    ensures IsSerial(states, steps, n) <==> IsSerial(states, steps, n - 1) && IsSerialAt(states, steps, n)
    ensures CI.AllTrees(states, n) <==> CI.AllTrees(states, n - 1) && Tree(states[n].rows)
  {
  }

  lemma {:induction false} SerialWhileTrees(states: seq<CI.State>, steps: seq<CI.Step>, n: nat)
    requires CI.IsRun(states, steps) && n < |states|
    ensures IsSerial(states, steps, n) <==> CI.AllTrees(states, n)
  {
    if n > 0 {
      SerialWhileTrees(states, steps, n - 1);
      OneMoreState(states, steps, n);
      if IsSerial(states, steps, n - 1) {
        assert IsSerialAt(states, steps, n - 1) && Tree(states[n - 1].rows);
        StepIsSerial(states, steps, n);
      }
    } else {
      assert IsSerialAt(states, steps, 0);
    }
  }

  /** In any run the committed table is all along that of the committed requests, run one after the other in the
    order of their commits and all successful, exactly if no move commits over a late row. */
  lemma SerialExactly(states: seq<CI.State>, steps: seq<CI.Step>, n: nat)
    requires CI.IsRun(states, steps) && n < |states|
    ensures IsSerial(states, steps, n) <==> CI.NoLateCommit(states, steps, n)
  {
    SerialWhileTrees(states, steps, n);
    CI.InterleavedTreesExactly(states, steps, n);
  }

  // ---------------------------------------------------------------------------
  // a transaction that nobody stands in the way of
  // ---------------------------------------------------------------------------

  ghost predicate LeadsTo(s: CI.State, steps: seq<CI.Step>, s': CI.State)
    decreases |steps|
  {
    if steps == [] then s' == s
    else CI.Enabled(s, steps[0]) && LeadsTo(CI.Apply(s, steps[0]), steps[1..], s')
  }

  lemma {:induction false} Joined(s: CI.State, a: seq<CI.Step>, s': CI.State, b: seq<CI.Step>, s'': CI.State)
    requires LeadsTo(s, a, s') && LeadsTo(s', b, s'')
    ensures LeadsTo(s, a + b, s'')
    decreases |a|
  {
    if a == [] {
      assert a + b == b;
    } else {
      assert (a + b)[0] == a[0] && (a + b)[1..] == a[1..] + b;
      Joined(CI.Apply(s, a[0]), a[1..], s', b, s'');
    }
  }

  /** No lock is held by another transaction. */
  ghost predicate Unhindered(s: CI.State, tx: Id) {
    forall k :: CI.Free(s, tx, k)
  }

  lemma EmptyOrNot(some: set<Id>)
    ensures some == {} || exists k :: k in some
  {
    if forall k :: k !in some {
      assert some == {};
    }
  }

  /** A statement visits all rows it has found, and takes those that still belong. */
  lemma {:induction false} VisitsAll(s: CI.State, tx: Id) returns (steps: seq<CI.Step>, s': CI.State)
    requires tx in s.running && Unhindered(s, tx) && s.running[tx].existing.Some?
    ensures LeadsTo(s, steps, s') && Unhindered(s', tx) && s'.rows == s.rows && tx in s'.running
    ensures s'.running == s.running[tx := s.running[tx].(left := {}, taken := s'.running[tx].taken)]
    ensures forall k :: k in s'.running[tx].taken <==>
                          || k in s.running[tx].taken
                          || (k in s.running[tx].left && k in s.rows
                              && CI.Under(s.rows[k], s.running[tx].existing.value))
    decreases |s.running[tx].left|
  {
    var left := s.running[tx].left;
    if left != {} {
      EmptyOrNot(left);
      var k :| k in left;
      assert CI.Free(s, tx, k);
      var next := CI.Apply(s, CI.Visit(tx, k));
      assert Unhindered(next, tx) by {
        forall i ensures CI.Free(next, tx, i) {
          assert CI.Free(s, tx, i);
        }
      }
      var rest;
      rest, s' := VisitsAll(next, tx);
      steps := [CI.Visit(tx, k)] + rest;
      assert steps[1..] == rest;
    } else {
      steps, s' := [], s;
    }
  }

  lemma TreeIsIndexed(t: Table)
    requires Tree(t)
    ensures Indexed(t) && CI.ParentsExist(t)
  {
    forall id, other | id in t && other in t && other != id ensures !Clashes(t, id, other, t[id]) {
      assert Placed(t, id) && !SamePath(t, id, other) && !SameSiblingName(t, id, other);
      if t[other].laboratory == t[id].laboratory {
        SiblingsByPath(t, other, t[id].laboratory, t[id].parent, t[id].code);
      }
    }
    forall k | k in t && t[k].parent.Some? ensures t[k].parent.value in t {
      assert Placed(t, k);
    }
  }

  /** The transaction has everything it needs and commits. */
  lemma CommitGoesThrough(s: CI.State, tx: Id, t: Table) returns (steps: seq<CI.Step>, s': CI.State)
    requires tx in s.running && CI.Ready(s.running[tx]) && Unhindered(s, tx)
    requires CI.Outcome(s.rows, s.running[tx]) == t && Tree(t)
    ensures LeadsTo(s, steps, s') && s' == CI.State(t, map[], s.running - {tx})
  {
    TreeIsIndexed(t);
    steps, s' := [CI.Commit(tx)], CI.Apply(s, CI.Commit(tx));
    forall k ensures k !in s'.locks {
      assert CI.Free(s, tx, k);
    }
  }

  lemma CreateGoesThrough(s: CI.State, tx: Id, request: Request) returns (steps: seq<CI.Step>, s': CI.State)
    requires Tree(s.rows) && s.locks == map[] && CI.Enabled(s, CI.Begin(tx, request)) && request.Create?
    requires Apply(s.rows, request).Success?
    ensures LeadsTo(s, steps, s') && s' == CI.State(Apply(s.rows, request).value, map[], s.running)
  {
    var begun := CI.Apply(s, CI.Begin(tx, request));
    var built := CI.Apply(begun, CI.LockParent(tx));
    RequestKeepsTree(s.rows, request);
    steps, s' := CommitGoesThrough(built, tx, Apply(s.rows, request).value);
    OneStep(begun, CI.LockParent(tx), steps, s');
    OneStep(s, CI.Begin(tx, request), [CI.LockParent(tx)] + steps, s');
    steps := [CI.Begin(tx, request)] + ([CI.LockParent(tx)] + steps);
    assert s.running == built.running - {tx};
  }

  lemma OneStep(s: CI.State, step: CI.Step, rest: seq<CI.Step>, s': CI.State)
    requires CI.Enabled(s, step) && LeadsTo(CI.Apply(s, step), rest, s')
    ensures LeadsTo(s, [step] + rest, s')
  {
    assert ([step] + rest)[1..] == rest;
  }

  /** One statement over all rows below: it looks for them and visits them. */
  lemma ScanGoesThrough(s: CI.State, tx: Id) returns (steps: seq<CI.Step>, s': CI.State)
    requires tx in s.running && s.running[tx].existing.Some? && Unhindered(s, tx) && CI.Enabled(s, CI.Scan(tx))
    ensures LeadsTo(s, steps, s') && Unhindered(s', tx) && s'.rows == s.rows && tx in s'.running
    ensures var x := s.running[tx];
            && s'.running == s.running[tx := x.(left := {}, taken := s'.running[tx].taken, scans := x.scans + 1)]
            && s'.running[tx].taken == x.taken
                                       + CI.Descendants(s.rows, x.request.id, x.existing.value)
                                       + if x.request.Delete? && x.request.id in s.rows
                                            && CI.Under(s.rows[x.request.id], x.existing.value)
                                         then {x.request.id} else {}
  {
    var scanned := CI.Apply(s, CI.Scan(tx));
    assert Unhindered(scanned, tx) by {
      forall k ensures CI.Free(scanned, tx, k) {
        assert CI.Free(s, tx, k);
      }
    }
    steps, s' := VisitsAll(scanned, tx);
    OneStep(s, CI.Scan(tx), steps, s');
    steps := [CI.Scan(tx)] + steps;
  }

  lemma DeleteGoesThrough(s: CI.State, tx: Id, request: Request) returns (steps: seq<CI.Step>, s': CI.State)
    requires Tree(s.rows) && s.locks == map[] && CI.Enabled(s, CI.Begin(tx, request)) && request.Delete?
    requires Apply(s.rows, request).Success?
    ensures LeadsTo(s, steps, s') && s' == CI.State(Apply(s.rows, request).value, map[], s.running)
  {
    var begun := CI.Apply(s, CI.Begin(tx, request));
    var locked := CI.Apply(begun, CI.LockOwn(tx));
    RequestKeepsTree(s.rows, request);
    var first, selected := ScanGoesThrough(locked, tx);
    var second, deleted := ScanGoesThrough(selected, tx);
    assert deleted.running[tx].taken == Subtree(s.rows, request.id);
    var last;
    last, s' := CommitGoesThrough(deleted, tx, Apply(s.rows, request).value);
    Joined(selected, second, deleted, last, s');
    Joined(locked, first, selected, second + last, s');
    OneStep(begun, CI.LockOwn(tx), first + (second + last), s');
    OneStep(s, CI.Begin(tx, request), [CI.LockOwn(tx)] + (first + (second + last)), s');
    steps := [CI.Begin(tx, request)] + ([CI.LockOwn(tx)] + (first + (second + last)));
    assert s.running == deleted.running - {tx};
  }

  lemma RewriteGoesThrough(s: CI.State, tx: Id) returns (steps: seq<CI.Step>, s': CI.State)
    requires tx in s.running && Unhindered(s, tx)
    requires var x := s.running[tx];
             && x.request.Update? && x.scans == 0 && x.taken == {} && x.left == {}
             && x.request.id in s.rows && x.existing == Some(s.rows[x.request.id])
             && x.row.Some? && MoveAccepted(s.rows, x.request.id, x.row.value)
    ensures LeadsTo(s, steps, s') && Unhindered(s', tx) && s'.rows == s.rows && tx in s'.running
    ensures s'.running - {tx} == s.running - {tx} && CI.Ready(s'.running[tx])
    ensures CI.Outcome(s.rows, s'.running[tx]) == Moved(s.rows, s.running[tx].request.id, s.running[tx].row.value)
  {
    var x := s.running[tx];
    if CI.Moves(x) {
      steps, s' := ScanGoesThrough(s, tx);
      assert s'.running[tx].taken == Below(s.rows, x.request.id);
    } else {
      steps, s' := [], s;
      SamePathMovesNothing(s.rows, x.request.id, x.row.value);
    }
  }

  /** From the built row to the commit. */
  lemma BuiltGoesThrough(s: CI.State, tx: Id, t: Table) returns (steps: seq<CI.Step>, s': CI.State)
    requires tx in s.running && Unhindered(s, tx)
    requires var x := s.running[tx];
             && x.request.Update? && x.scans == 0 && x.taken == {} && x.left == {}
             && x.request.id in s.rows && x.existing == Some(s.rows[x.request.id])
             && x.row.Some? && MoveAccepted(s.rows, x.request.id, x.row.value)
             && t == Moved(s.rows, x.request.id, x.row.value) && Tree(t)
    ensures LeadsTo(s, steps, s') && s' == CI.State(t, map[], s.running - {tx})
  {
    var rest, done := RewriteGoesThrough(s, tx);
    var last;
    last, s' := CommitGoesThrough(done, tx, t);
    Joined(s, rest, done, last, s');
    steps := rest + last;
  }

  lemma UpdateGoesThrough(s: CI.State, tx: Id, request: Request) returns (steps: seq<CI.Step>, s': CI.State)
    requires Tree(s.rows) && s.locks == map[] && CI.Enabled(s, CI.Begin(tx, request)) && request.Update?
    requires Apply(s.rows, request).Success?
    ensures LeadsTo(s, steps, s') && s' == CI.State(Apply(s.rows, request).value, map[], s.running)
  {
    var begun := CI.Apply(s, CI.Begin(tx, request));
    var locked := CI.Apply(begun, CI.LockOwn(tx));
    var x := locked.running[tx];
    PathsNonEmpty(s.rows);
    MoveIsAccepted(s.rows, request.id, CI.ParentOf(x), CI.NameOf(x), CI.CodeOf(x));
    var built := CI.Apply(locked, CI.LockParent(tx));
    steps, s' := BuiltGoesThrough(built, tx, Apply(s.rows, request).value);
    assert built.running - {tx} == s.running;
    OneStep(locked, CI.LockParent(tx), steps, s');
    steps := [CI.LockParent(tx)] + steps;
    OneStep(begun, CI.LockOwn(tx), steps, s');
    steps := [CI.LockOwn(tx)] + steps;
    OneStep(s, CI.Begin(tx, request), steps, s');
    steps := [CI.Begin(tx, request)] + steps;
  }

  /** Where no lock is held, a transaction whose request succeeds on the table goes through to its commit, and
    leaves what the request alone would leave. */
  lemma GoesThrough(s: CI.State, tx: Id, request: Request) returns (steps: seq<CI.Step>, s': CI.State)
    requires Tree(s.rows) && s.locks == map[] && CI.Enabled(s, CI.Begin(tx, request))
    requires Apply(s.rows, request).Success?
    ensures LeadsTo(s, steps, s') && s' == CI.State(Apply(s.rows, request).value, map[], s.running)
  {
    match request
    case Create(_, _, _, _, _) => steps, s' := CreateGoesThrough(s, tx, request);
    case Update(_, _, _, _) => steps, s' := UpdateGoesThrough(s, tx, request);
    case Delete(_) => steps, s' := DeleteGoesThrough(s, tx, request);
  }
}
