/** Category transactions running side by side.

  A create locks the parent of its row; an update locks its row, then the new parent,
  and rewrites what is below in one statement; a delete locks its row, then the rows
  below, and deletes them in a second statement. A statement over many rows looks for
  them once, when it starts. It then waits for each row's lock, looks at the row again,
  and leaves it alone if it does not belong any more. Rows that appear later it never sees.

  Writes show at the commit. The unique indexes and the foreign key are met there, too, and
  not at every write: that leaves out no run of the program. */
module CategoryInterleaving {
  import opened CategoryPaths
  import opened CategoryTree
  import opened Wrappers

  /** `existing` is the row a transaction has locked, `row` the one it will write; `left` are the rows a
    statement has yet to visit, `taken` those it has locked. */
  datatype Transaction = Transaction(
    request: Request,
    existing: Option<Category>,
    row: Option<Category>,
    scans: nat,
    left: set<Id>,
    taken: set<Id>)

  datatype State = State(rows: Table, locks: map<Id, Id>, running: map<Id, Transaction>)

  datatype Step =
    | Begin(tx: Id, request: Request)
    | LockOwn(tx: Id)
    | LockParent(tx: Id)
    | Scan(tx: Id)
    | Visit(tx: Id, k: Id)
    | Commit(tx: Id)
    | RollBack(tx: Id)

  // ---------------------------------------------------------------------------
  // what a transaction reads and writes
  // ---------------------------------------------------------------------------

  predicate Under(row: Category, root: Category) {
    row.laboratory == root.laboratory && root.path <= row.path
  }

  function Descendants(t: Table, id: Id, root: Category): set<Id> {
    set k | k in t && k != id && Under(t[k], root)
  }

  function ParentOf(x: Transaction): Option<Id>
    requires x.request.Create? || x.existing.Some?
  {
    match x.request
    case Create(_, _, parent, _, _) => parent
    case Update(_, newParent, _, _) => newParent.Resolve(x.existing.value.parent)
    case Delete(_) => None
  }

  function NameOf(x: Transaction): string
    requires x.request.Create? || x.existing.Some?
  {
    match x.request
    case Create(_, _, _, name, _) => name
    case Update(_, _, newName, _) => if newName.Some? then newName.value else x.existing.value.name
    case Delete(_) => x.existing.value.name
  }

  function CodeOf(x: Transaction): string
    requires x.request.Create? || x.existing.Some?
  {
    match x.request
    case Create(_, _, _, _, code) => code
    case Update(_, _, _, newCode) => if newCode.Some? then newCode.value else x.existing.value.code
    case Delete(_) => x.existing.value.code
  }

  function LaboratoryOf(x: Transaction): Id
    requires x.request.Create? || x.existing.Some?
  {
    if x.request.Create? then x.request.laboratory else x.existing.value.laboratory
  }

  /** Whether the row may be hung below its parent. */
  ghost predicate ParentAllowed(t: Table, x: Transaction)
    requires x.request.Create? || x.existing.Some?
  {
    if x.request.Create? then ParentFits(t, LaboratoryOf(x), ParentOf(x))
    else x.request.id in t && MoveFits(t, x.request.id, ParentOf(x))
  }

  function RowBuilt(t: Table, x: Transaction): Category
    requires (x.request.Create? || x.existing.Some?) && (ParentOf(x).Some? ==> ParentOf(x).value in t)
  {
    NewRow(t, LaboratoryOf(x), ParentOf(x), NameOf(x), CodeOf(x))
  }

  /** An update that changes the path, and so has descendants to rewrite. */
  predicate Moves(x: Transaction) {
    && x.request.Update? && x.existing.Some? && x.row.Some?
    && (x.row.value.path != x.existing.value.path || x.row.value.depth != x.existing.value.depth)
  }

  /** The table a transaction leaves behind. */
  ghost function Outcome(t: Table, x: Transaction): Table {
    match x.request
    case Create(_, id, _, _, _) => if x.row.Some? then t[id := x.row.value] else t
    case Update(id, _, _, _) =>
      if x.row.None? || x.existing.None? then t
      else
        map k | k in t ::
          if k == id then x.row.value
          else if k in x.taken && x.existing.value.path <= t[k].path
          then Rehung(t[k], x.existing.value.path, x.row.value.path)
          else t[k]
    case Delete(_) => Without(t, x.taken)
  }

  ghost predicate ParentsExist(t: Table) {
    forall k :: k in t && t[k].parent.Some? ==> t[k].parent.value in t
  }

  // ---------------------------------------------------------------------------
  // steps
  // ---------------------------------------------------------------------------

  predicate Holds(s: State, tx: Id, k: Id) {
    k in s.locks && s.locks[k] == tx
  }

  predicate Free(s: State, tx: Id, k: Id) {
    k in s.locks ==> s.locks[k] == tx
  }

  /** Ids of new categories are drawn so that nobody else has them. */
  predicate FreshFor(s: State, request: Request) {
    request.Create? ==>
      forall tx :: tx in s.running && s.running[tx].request.Create? ==> s.running[tx].request.id != request.id
  }

  predicate Ready(x: Transaction) {
    match x.request
    case Create(_, _, _, _, _) => x.row.Some?
    case Update(_, _, _, _) => x.row.Some? && (Moves(x) ==> x.scans == 1 && x.left == {})
    case Delete(_) => x.scans == 2 && x.left == {}
  }

  ghost predicate Enabled(s: State, step: Step) {
    match step
    case Begin(tx, request) => tx !in s.running && Admissible(s.rows, request) && FreshFor(s, request)
    case LockOwn(tx) =>
      && tx in s.running
      && var x := s.running[tx];
      && !x.request.Create? && x.existing.None? && x.request.id in s.rows && x.request.id !in s.locks
    case LockParent(tx) =>
      && tx in s.running
      && var x := s.running[tx];
      && !x.request.Delete? && x.row.None? && (x.request.Create? || x.existing.Some?)
      && ParentAllowed(s.rows, x)
      && (ParentOf(x).Some? ==> ParentOf(x).value !in s.locks)
    case Scan(tx) =>
      && tx in s.running
      && var x := s.running[tx];
      && ((Moves(x) && x.scans == 0) || (x.request.Delete? && x.existing.Some? && x.scans < 2 && x.left == {}))
    case Visit(tx, k) => tx in s.running && k in s.running[tx].left && Free(s, tx, k)
    case Commit(tx) =>
      && tx in s.running && Ready(s.running[tx])
      && Indexed(Outcome(s.rows, s.running[tx])) && ParentsExist(Outcome(s.rows, s.running[tx]))
    case RollBack(tx) => tx in s.running
  }

  /** Ends a transaction: its locks are released. */
  function Ended(s: State, tx: Id): State {
    s.(running := s.running - {tx}, locks := map k | k in s.locks && s.locks[k] != tx :: s.locks[k])
  }

  function Entered(s: State, tx: Id, x: Transaction): State {
    s.(running := s.running[tx := x])
  }

  ghost function Apply(s: State, step: Step): State
    requires Enabled(s, step)
  {
    match step
    case Begin(tx, request) => Entered(s, tx, Transaction(request, None, None, 0, {}, {}))
    case LockOwn(tx) =>
      var x := s.running[tx];
      Entered(s.(locks := s.locks[x.request.id := tx]), tx, x.(existing := Some(s.rows[x.request.id])))
    case LockParent(tx) =>
      var x := s.running[tx];
      Entered(if ParentOf(x).Some? then s.(locks := s.locks[ParentOf(x).value := tx]) else s, tx,
              x.(row := Some(RowBuilt(s.rows, x))))
    case Scan(tx) =>
      var x := s.running[tx];
      var below := Descendants(s.rows, x.request.id, x.existing.value);
      Entered(s, tx, x.(scans := x.scans + 1, left := if x.request.Delete? then below + {x.request.id} else below))
    case Visit(tx, k) =>
      var x := s.running[tx];
      if x.existing.Some? && k in s.rows && Under(s.rows[k], x.existing.value)
      then Entered(s.(locks := s.locks[k := tx]), tx, x.(left := x.left - {k}, taken := x.taken + {k}))
      else Entered(s, tx, x.(left := x.left - {k}))
    case Commit(tx) => Ended(s.(rows := Outcome(s.rows, s.running[tx])), tx)
    case RollBack(tx) => Ended(s, tx)
  }

  ghost predicate IsRun(states: seq<State>, steps: seq<Step>) {
    && |states| == |steps| + 1
    && states[0] == State(map[], map[], map[])
    && forall i {:trigger steps[i]} :: 0 <= i < |steps| ==> Follows(states[i], steps[i], states[i + 1])
  }

  ghost predicate Follows(s: State, step: Step, s': State) {
    Enabled(s, step) && s' == Apply(s, step)
  }

  // ---------------------------------------------------------------------------
  // what locks protect
  // ---------------------------------------------------------------------------

  /** The row was built from a parent that has been locked since. */
  ghost predicate RowStands(s: State, tx: Id, x: Transaction) {
    && (x.request.Create? || x.existing.Some?) && !x.request.Delete?
    && (ParentOf(x).Some? ==> Holds(s, tx, ParentOf(x).value))
    && ParentAllowed(s.rows, x)
    && x.row == Some(RowBuilt(s.rows, x))
  }

  ghost predicate Secured(s: State, tx: Id, x: Transaction) {
    && (x.existing.Some? ==>
          && !x.request.Create? && Holds(s, tx, x.request.id)
          && x.request.id in s.rows && s.rows[x.request.id] == x.existing.value)
    && (x.row.Some? ==> RowStands(s, tx, x))
    && (x.scans > 0 ==> x.existing.Some?)
    && (x.request.Create? ==> x.request.id !in s.rows && ValidCode(x.request.code))
    && (x.request.Update? && x.request.newCode.Some? ==> ValidCode(x.request.newCode.value))
    && (x.request.Update? ==> x.request.id !in x.left && x.request.id !in x.taken && (x.scans > 0 ==> Moves(x)))
    && (x.request.Delete? && x.scans > 0 ==> x.request.id in x.left + x.taken)
    && (x.scans == 0 ==> x.taken == {} && x.left == {})
    && (forall k :: k in x.taken ==> TakenStands(s, tx, x, k))
  }

  ghost predicate TakenStands(s: State, tx: Id, x: Transaction, k: Id) {
    x.existing.Some? && Holds(s, tx, k) && k in s.rows && Under(s.rows[k], x.existing.value)
  }

  predicate SameNewId(a: Transaction, b: Transaction) {
    a.request.Create? && b.request.Create? && a.request.id == b.request.id
  }

  ghost predicate Inv(s: State) {
    && (forall tx :: tx in s.running ==> Secured(s, tx, s.running[tx]))
    && (forall a, b :: a in s.running && b in s.running && SameNewId(s.running[a], s.running[b]) ==> a == b)
  }

  /** Nothing a transaction holds changes from `s` to `s'`. */
  ghost predicate Undisturbed(s: State, s': State, tx: Id, x: Transaction) {
    && (forall k :: Holds(s, tx, k) ==> Holds(s', tx, k))
    && (forall k :: Holds(s, tx, k) && k in s.rows ==> k in s'.rows && s'.rows[k] == s.rows[k])
    && (x.request.Create? && x.request.id !in s.rows ==> x.request.id !in s'.rows)
  }

  lemma SecuredStays(s: State, s': State, tx: Id, x: Transaction)
    requires Secured(s, tx, x) && Undisturbed(s, s', tx, x)
    ensures Secured(s', tx, x)
  {
    forall k | k in x.taken ensures TakenStands(s', tx, x, k) {
      assert TakenStands(s, tx, x, k);
    }
  }

  /** A commit changes only rows that the transaction has locked. */
  lemma OutcomeTouchesOwn(s: State, tx: Id, k: Id)
    requires tx in s.running && Secured(s, tx, s.running[tx]) && Ready(s.running[tx])
    requires k in s.rows && !Holds(s, tx, k)
    ensures var t := Outcome(s.rows, s.running[tx]); k in t && t[k] == s.rows[k]
  {
    var x := s.running[tx];
    assert k in x.taken ==> TakenStands(s, tx, x, k);
  }

  lemma OutcomeAddsOwn(s: State, tx: Id, k: Id)
    requires tx in s.running && k !in s.rows
    ensures k in Outcome(s.rows, s.running[tx]) ==> s.running[tx].request.Create? && s.running[tx].request.id == k
  {
  }

  lemma CommitDisturbsNobody(s: State, tx: Id, other: Id)
    requires Inv(s) && Enabled(s, Commit(tx)) && other in s.running && other != tx
    ensures Undisturbed(s, Apply(s, Commit(tx)), other, s.running[other])
  {
    var s' := Apply(s, Commit(tx));
    forall k | Holds(s, other, k) && k in s.rows ensures k in s'.rows && s'.rows[k] == s.rows[k] {
      OutcomeTouchesOwn(s, tx, k);
    }
    var x := s.running[other];
    if x.request.Create? && x.request.id !in s.rows {
      OutcomeAddsOwn(s, tx, x.request.id);
      assert !SameNewId(s.running[tx], x);
    }
  }

  lemma StepDisturbsNobody(s: State, step: Step, other: Id)
    requires Inv(s) && Enabled(s, step) && other in s.running && other != step.tx
    ensures Undisturbed(s, Apply(s, step), other, s.running[other])
  {
    if step.Commit? {
      CommitDisturbsNobody(s, step.tx, other);
    }
  }

  lemma LockSecures(s: State, step: Step)
    requires Inv(s) && Enabled(s, step) && (step.LockOwn? || step.LockParent?)
    ensures Secured(Apply(s, step), step.tx, Apply(s, step).running[step.tx])
  {
    var x := s.running[step.tx];
    assert Secured(s, step.tx, x);
    assert x.taken == {};
  }

  lemma VisitSecures(s: State, tx: Id, k: Id)
    requires Inv(s) && Enabled(s, Visit(tx, k))
    ensures Secured(Apply(s, Visit(tx, k)), tx, Apply(s, Visit(tx, k)).running[tx])
  {
    var s', x := Apply(s, Visit(tx, k)), s.running[tx];
    forall i | i in s'.running[tx].taken ensures TakenStands(s', tx, s'.running[tx], i) {
      assert i in x.taken ==> TakenStands(s, tx, x, i);
    }
  }

  lemma ScanSecures(s: State, tx: Id)
    requires Inv(s) && Enabled(s, Scan(tx))
    ensures Secured(Apply(s, Scan(tx)), tx, Apply(s, Scan(tx)).running[tx])
  {
    var s', x := Apply(s, Scan(tx)), s.running[tx];
    forall i | i in x.taken ensures TakenStands(s', tx, s'.running[tx], i) {
      assert TakenStands(s, tx, x, i);
    }
  }

  lemma OwnStepSecures(s: State, step: Step)
    requires Inv(s) && Enabled(s, step) && step.tx in Apply(s, step).running
    ensures Secured(Apply(s, step), step.tx, Apply(s, step).running[step.tx])
  {
    match step
    case LockOwn(_) => LockSecures(s, step);
    case LockParent(_) => LockSecures(s, step);
    case Scan(tx) => ScanSecures(s, tx);
    case Visit(tx, k) => VisitSecures(s, tx, k);
    case _ =>
  }

  lemma StepKeepsSecured(s: State, step: Step, tx: Id)
    requires Inv(s) && Enabled(s, step) && tx in Apply(s, step).running
    ensures Secured(Apply(s, step), tx, Apply(s, step).running[tx])
  {
    if tx == step.tx {
      OwnStepSecures(s, step);
    } else {
      StepDisturbsNobody(s, step, tx);
      SecuredStays(s, Apply(s, step), tx, s.running[tx]);
    }
  }

  lemma StepKeepsInv(s: State, step: Step)
    requires Inv(s) && Enabled(s, step)
    ensures Inv(Apply(s, step))
  {
    var s' := Apply(s, step);
    forall tx | tx in s'.running ensures Secured(s', tx, s'.running[tx]) {
      StepKeepsSecured(s, step, tx);
    }
    forall a, b | a in s'.running && b in s'.running && SameNewId(s'.running[a], s'.running[b]) ensures a == b {
      if a in s.running && b in s.running {
        assert SameNewId(s.running[a], s.running[b]);
      }
    }
  }

  lemma {:induction false} RunKeepsInv(states: seq<State>, steps: seq<Step>, n: nat)
    requires IsRun(states, steps) && n < |states|
    ensures Inv(states[n])
  {
    if n > 0 {
      RunKeepsInv(states, steps, n - 1);
      assert Follows(states[n - 1], steps[n - 1], states[n]);
      StepKeepsInv(states[n - 1], steps[n - 1]);
    }
  }

  // ---------------------------------------------------------------------------
  // which commits leave a tree
  // ---------------------------------------------------------------------------

  /** The rows below the category that the rewrite of a move has not seen, and will not visit. */
  function Missing(s: State, tx: Id): set<Id>
    requires tx in s.running
  {
    var x := s.running[tx];
    if x.existing.None? then {} else Descendants(s.rows, x.request.id, x.existing.value) - x.left - x.taken
  }

  lemma CreateCommits(s: State, tx: Id)
    requires Inv(s) && Tree(s.rows) && Enabled(s, Commit(tx)) && s.running[tx].request.Create?
    ensures Tree(Outcome(s.rows, s.running[tx]))
  {
    var t, x := s.rows, s.running[tx];
    var id, row := x.request.id, x.row.value;
    var t' := Outcome(t, x);
    assert Secured(s, tx, x) && RowStands(s, tx, x);
    assert t'[id] == row && Accepted(t', id, t'[id]);
    forall other | other in t && other != id ensures !Clashes(t, id, other, row) {
      assert t'[other] == t[other] && !Clashes(t', id, other, row);
    }
    CreateKeepsTree(t, id, x.request.laboratory, x.request.parent, x.request.name, x.request.code);
  }

  lemma DeleteCommits(s: State, tx: Id)
    requires Tree(s.rows) && Enabled(s, Commit(tx)) && s.running[tx].request.Delete?
    ensures Tree(Outcome(s.rows, s.running[tx]))
  {
    var t, gone := s.rows, s.running[tx].taken;
    var t' := Without(t, gone);
    forall k | k in t && k !in gone && t[k].parent.Some? ensures t[k].parent.value !in gone {
      assert t'[k] == t[k];
    }
    UnreferencedMayGo(t, gone);
  }

  /** What an update leaves behind is a move with part of the rows below rewritten. */
  lemma UpdateIsPartlyMoved(s: State, tx: Id)
    requires Inv(s) && Tree(s.rows) && Enabled(s, Commit(tx)) && s.running[tx].request.Update?
    ensures var x := s.running[tx];
            && x.existing.Some? && x.row.Some? && x.request.id in s.rows
            && x.taken <= Below(s.rows, x.request.id)
            && Below(s.rows, x.request.id) == Descendants(s.rows, x.request.id, x.existing.value)
            && Outcome(s.rows, x) == PartlyMoved(s.rows, x.request.id, x.row.value, x.taken)
            && MoveAccepted(s.rows, x.request.id, x.row.value)
  {
    var t, x := s.rows, s.running[tx];
    var id, row := x.request.id, x.row.value;
    assert Secured(s, tx, x) && RowStands(s, tx, x);
    assert Placed(t, id);
    forall k | k in x.taken ensures k in Below(t, id) {
      assert TakenStands(s, tx, x, k);
    }
    assert Outcome(t, x) == PartlyMoved(t, id, row, x.taken);
    OutcomeIsAccepted(t, id, row, x.taken);
  }

  /** In a tree an update changes path and depth together. */
  lemma MovesChangePath(s: State, tx: Id)
    requires Inv(s) && Tree(s.rows) && tx in s.running && s.running[tx].existing.Some? && s.running[tx].row.Some?
    ensures Moves(s.running[tx]) <==> s.running[tx].row.value.path != s.running[tx].existing.value.path
  {
    var x := s.running[tx];
    assert Secured(s, tx, x) && RowStands(s, tx, x) && Placed(s.rows, x.request.id);
    if ParentOf(x).Some? {
      assert Placed(s.rows, ParentOf(x).value);
    }
  }

  lemma UpdateCommits(s: State, tx: Id)
    requires Inv(s) && Tree(s.rows) && Enabled(s, Commit(tx)) && s.running[tx].request.Update?
    ensures Tree(Outcome(s.rows, s.running[tx])) <==> (Moves(s.running[tx]) ==> Missing(s, tx) == {})
  {
    var t, x := s.rows, s.running[tx];
    var id, row := x.request.id, x.row.value;
    UpdateIsPartlyMoved(s, tx);
    MovesChangePath(s, tx);
    assert Secured(s, tx, x);
    if Moves(x) {
      RewriteMustBeComplete(t, id, row, x.taken);
      assert Missing(s, tx) == Below(t, id) - x.taken;
      NothingBetween(Below(t, id), x.taken);
    } else {
      assert x.taken == {};
      SamePathMovesNothing(t, id, row);
      MoveKeepsTree(t, id, row);
      NothingRewritten(t, id, row);
    }
  }

  lemma NothingBetween(all: set<Id>, some: set<Id>)
    requires some <= all
    ensures all - some == {} <==> some == all
  {
    if all - some == {} {
      forall k | k in all ensures k in some {
        assert k !in all - some;
      }
    }
  }

  lemma NothingRewritten(t: Table, id: Id, row: Category)
    requires id in t
    ensures PartlyMoved(t, id, row, {}) == t[id := row]
  {
  }

  /** A commit leaves a tree exactly if it is not that of a move whose rewrite misses a row. */
  lemma CommitIsExact(s: State, tx: Id)
    requires Inv(s) && Tree(s.rows) && Enabled(s, Commit(tx))
    ensures Tree(Apply(s, Commit(tx)).rows) <==> (Moves(s.running[tx]) ==> Missing(s, tx) == {})
  {
    match s.running[tx].request
    case Create(_, _, _, _, _) => CreateCommits(s, tx);
    case Update(_, _, _, _) => UpdateCommits(s, tx);
    case Delete(_) => DeleteCommits(s, tx);
  }

  /** The commit of a move that misses a row. */
  ghost predicate MissesRow(s: State, step: Step) {
    step.Commit? && step.tx in s.running && Moves(s.running[step.tx]) && Missing(s, step.tx) != {}
  }

  ghost predicate AllTrees(states: seq<State>, n: nat)
    requires n < |states|
  {
    forall i :: 0 <= i <= n ==> Tree(states[i].rows)
  }

  ghost predicate NothingMissed(states: seq<State>, steps: seq<Step>, n: nat)
    requires n < |states| && n <= |steps|
  {
    forall c {:trigger steps[c]} :: 0 <= c < n ==> !MissesRow(states[c], steps[c])
  }

  /** The committed table has been a tree all along exactly if no move has missed a row. */
  lemma {:induction false} TreesExactly(states: seq<State>, steps: seq<Step>, n: nat)
    requires IsRun(states, steps) && n < |states|
    ensures AllTrees(states, n) <==> NothingMissed(states, steps, n)
  {
    if n > 0 {
      TreesExactly(states, steps, n - 1);
      RunKeepsInv(states, steps, n - 1);
      var s, step := states[n - 1], steps[n - 1];
      assert Follows(s, step, states[n]);
      if step.Commit? && Tree(s.rows) {
        CommitIsExact(s, step.tx);
      }
    }
  }

  // ---------------------------------------------------------------------------
  // how a rewrite comes to miss a row
  // ---------------------------------------------------------------------------

  /** The row is below the category that `m` has locked. */
  predicate Inside(s: State, m: Id, k: Id) {
    && m in s.running && s.running[m].existing.Some?
    && k in Descendants(s.rows, s.running[m].request.id, s.running[m].existing.value)
  }

  /** The row comes to be there, and `m` is not about to visit it. */
  predicate Enters(s: State, s': State, m: Id, k: Id) {
    m in s.running && !Inside(s, m, k) && Inside(s', m, k) && k !in s.running[m].left
  }

  predicate Rewriting(s: State, m: Id) {
    m in s.running && s.running[m].request.Update? && s.running[m].existing.Some? && s.running[m].scans == 1
  }

  lemma RewriteGoesOn(s: State, step: Step, m: Id, k: Id)
    requires Inv(s) && Enabled(s, step) && Rewriting(s, m) && m in Apply(s, step).running
    ensures Rewriting(Apply(s, step), m)
    ensures var x, x' := s.running[m], Apply(s, step).running[m];
            && x'.request == x.request && x'.existing == x.existing && x'.row == x.row
            && x'.left <= x.left && x.taken <= x'.taken
            && (k in x.left && k !in x'.left && k !in x'.taken ==> !Inside(s, m, k) && !Inside(Apply(s, step), m, k))
            && (k in x'.taken && k !in x.taken ==> k in x.left)
  {
    assert Secured(s, m, s.running[m]);
  }

  /** One step makes `m` miss a row only by bringing it in. */
  lemma MissingStep(s: State, step: Step, m: Id, k: Id)
    requires Inv(s) && Enabled(s, step) && Rewriting(s, m) && m in Apply(s, step).running
    ensures k in Missing(Apply(s, step), m) <==>
            Inside(Apply(s, step), m, k) && (k in Missing(s, m) || Enters(s, Apply(s, step), m, k))
  {
    RewriteGoesOn(s, step, m, k);
    var x := s.running[m];
    assert Secured(s, m, x);
    assert k in x.taken ==> TakenStands(s, m, x, k);
  }

  /** `m` has looked for the rows below in step `a`, and is still open at `c`. */
  ghost predicate ScannedAt(states: seq<State>, steps: seq<Step>, m: Id, a: nat, c: nat)
    requires c < |states| && c <= |steps|
  {
    a < c && steps[a] == Scan(m) && forall i :: a < i <= c ==> Rewriting(states[i], m)
  }

  /** The row comes in at step `j` and stays inside up to `c`. */
  ghost predicate ArrivesAt(states: seq<State>, m: Id, j: nat, c: nat, k: Id)
    requires c < |states|
  {
    j < c && Enters(states[j], states[j + 1], m, k) && forall i :: j < i <= c ==> Inside(states[i], m, k)
  }

  ghost predicate Arrived(states: seq<State>, m: Id, a: nat, c: nat, k: Id)
    requires c < |states|
  {
    exists j :: a < j < c && ArrivesAt(states, m, j, c, k)
  }

  lemma ArrivalGoesOn(states: seq<State>, m: Id, a: nat, c: nat, k: Id)
    requires a < c && c + 1 < |states|
    ensures Arrived(states, m, a, c + 1, k) <==>
            (Inside(states[c + 1], m, k) && Arrived(states, m, a, c, k)) || Enters(states[c], states[c + 1], m, k)
  {
    if Arrived(states, m, a, c, k) && Inside(states[c + 1], m, k) {
      var j :| a < j < c && ArrivesAt(states, m, j, c, k);
      assert ArrivesAt(states, m, j, c + 1, k);
    }
    if Enters(states[c], states[c + 1], m, k) {
      assert ArrivesAt(states, m, c, c + 1, k);
    }
    if Arrived(states, m, a, c + 1, k) {
      var j :| a < j < c + 1 && ArrivesAt(states, m, j, c + 1, k);
      assert j < c ==> ArrivesAt(states, m, j, c, k);
    }
  }

  /** The rows a rewrite misses are exactly those that came in after it had looked, and stayed. */
  lemma {:induction false} MissingIsLate(states: seq<State>, steps: seq<Step>, m: Id, a: nat, c: nat, k: Id)
    requires IsRun(states, steps) && c < |states| && ScannedAt(states, steps, m, a, c)
    ensures k in Missing(states[c], m) <==> Arrived(states, m, a, c, k)
    decreases c
  {
    var s, step := states[c - 1], steps[c - 1];
    RunKeepsInv(states, steps, c - 1);
    assert Follows(s, step, states[c]);
    if c == a + 1 {
      assert Secured(s, m, s.running[m]);
      assert Missing(states[c], m) == {};
    } else {
      MissingIsLate(states, steps, m, a, c - 1, k);
      MissingStep(s, step, m, k);
      ArrivalGoesOn(states, m, a, c - 1, k);
    }
  }

  lemma {:induction false} FindScan(states: seq<State>, steps: seq<Step>, m: Id, c: nat) returns (a: nat)
    requires IsRun(states, steps) && c < |states| && Rewriting(states[c], m)
    ensures ScannedAt(states, steps, m, a, c)
  {
    RunKeepsInv(states, steps, c - 1);
    assert Follows(states[c - 1], steps[c - 1], states[c]);
    if Rewriting(states[c - 1], m) {
      a := FindScan(states, steps, m, c - 1);
    } else {
      a := c - 1;
    }
  }

  // ---------------------------------------------------------------------------
  // who brings a row in
  // ---------------------------------------------------------------------------

  /** The step commits a create or a move that puts its row under a proper descendant of the category that
    `m` moves; `k` is that row, or one that comes along with it. */
  ghost predicate PutsBelow(s: State, step: Step, m: Id, k: Id) {
    && m in s.running && step.Commit? && step.tx in s.running && step.tx != m
    && var y := s.running[step.tx];
    && y.row.Some? && y.row.value.parent.Some? && Inside(s, m, y.row.value.parent.value)
    && (k == y.request.id || (y.existing.Some? && k in Descendants(s.rows, y.request.id, y.existing.value)))
  }

  lemma OnlyCommitsBringIn(s: State, step: Step, m: Id, k: Id)
    requires Inv(s) && Enabled(s, step) && Rewriting(s, m) && Enters(s, Apply(s, step), m, k)
    ensures step.Commit? && step.tx != m && !s.running[step.tx].request.Delete?
    ensures Apply(s, step).running[m] == s.running[m]
  {
  }

  /** Where a created or moved row lies under another, its parent does. */
  lemma ParentIsInside(s: State, y: Id, m: Id)
    requires Inv(s) && Tree(s.rows) && Rewriting(s, m) && Enabled(s, Commit(y)) && y != m
    requires Tree(Apply(s, Commit(y)).rows) && !s.running[y].request.Delete?
    requires Inside(Apply(s, Commit(y)), m, s.running[y].request.id)
    ensures s.running[y].row.value.parent.Some? && Inside(s, m, s.running[y].row.value.parent.value)
  {
    var x, z := s.running[m], s.running[y];
    var s' := Apply(s, Commit(y));
    assert Secured(s, m, x) && Secured(s, y, z) && RowStands(s, y, z);
    OutcomeTouchesOwn(s, y, x.request.id);
    assert !SamePath(s'.rows, z.request.id, x.request.id);
    assert Placed(s.rows, x.request.id);
    if ParentOf(z).Some? {
      PrefixOfOneMore(x.existing.value.path, s.rows[ParentOf(z).value].path, CodeOf(z));
    }
  }

  /** A row that comes along with a move comes to lie below the moved row's new parent. */
  lemma CompanionIsInside(s: State, y: Id, m: Id, k: Id)
    requires Inv(s) && Tree(s.rows) && Rewriting(s, m) && Enabled(s, Commit(y)) && y != m
    requires Tree(Apply(s, Commit(y)).rows) && s.running[y].request.Update? && k in s.running[y].taken
    requires Inside(Apply(s, Commit(y)), m, k)
    ensures Inside(Apply(s, Commit(y)), m, s.running[y].request.id)
  {
    var t, x, z := s.rows, s.running[m], s.running[y];
    var row := z.row.value;
    assert Secured(s, m, x) && Secured(s, y, z) && TakenStands(s, y, z, k);
    CommitIsExact(s, y);
    UpdateIsPartlyMoved(s, y);
    assert Moves(z) && z.left == {};
    NothingBetween(Below(t, z.request.id), z.taken);
    assert Missing(s, y) == Below(t, z.request.id) - z.taken;
    assert x.request.id !in z.taken by {
      assert x.request.id in z.taken ==> TakenStands(s, y, z, x.request.id);
    }
    var path := row.path + t[k].path[|z.existing.value.path|..];
    assert Outcome(t, z)[k].path == path;
    PrefixesCompare(row.path, x.existing.value.path, path);
    if row.path <= x.existing.value.path {
      OutsiderIsApart(t, z.request.id, row, x.request.id);
    }
  }

  lemma PrefixesCompare(a: seq<string>, b: seq<string>, path: seq<string>)
    requires a <= path && b <= path
    ensures a <= b || b <= a
  {
    assert a == path[..|a|] && b == path[..|b|];
  }

  /** While the table stays a tree, a row can only come in like this. */
  lemma ArrivalIsPutBelow(s: State, step: Step, m: Id, k: Id)
    requires Inv(s) && Enabled(s, step) && Rewriting(s, m) && Enters(s, Apply(s, step), m, k)
    requires Tree(s.rows) && Tree(Apply(s, step).rows)
    ensures PutsBelow(s, step, m, k)
  {
    OnlyCommitsBringIn(s, step, m, k);
    var y := step.tx;
    var z := s.running[y];
    assert Secured(s, y, z) && RowStands(s, y, z);
    if k != z.request.id {
      assert k in z.taken && TakenStands(s, y, z, k);
      CompanionIsInside(s, y, m, k);
    }
    ParentIsInside(s, y, m);
  }

  // ---------------------------------------------------------------------------
  // the exact condition
  // ---------------------------------------------------------------------------

  /** A late row: while the move `m` is open, after it looked in step `a` and before its commit in step `c`,
    another commit in step `j` puts `k` under a proper descendant of the moved category, where `m` is not
    about to visit it, and there it stays. */
  ghost predicate LateRow(states: seq<State>, steps: seq<Step>, m: Id, a: nat, j: nat, c: nat, k: Id)
    requires c < |states| && c <= |steps|
  {
    && a < j < c && ScannedAt(states, steps, m, a, c)
    && PutsBelow(states[j], steps[j], m, k) && ArrivesAt(states, m, j, c, k)
  }

  /** Step `c` commits a move that has a late row. */
  ghost predicate CommitsOverLateRow(states: seq<State>, steps: seq<Step>, c: nat)
    requires c < |states| && c < |steps|
  {
    && steps[c].Commit? && steps[c].tx in states[c].running && Moves(states[c].running[steps[c].tx])
    && exists a, j, k :: LateRow(states, steps, steps[c].tx, a, j, c, k)
  }

  lemma MissedIsLate(states: seq<State>, steps: seq<Step>, c: nat)
    requires IsRun(states, steps) && c < |steps| && AllTrees(states, c)
    ensures MissesRow(states[c], steps[c]) <==> CommitsOverLateRow(states, steps, c)
  {
    assert Follows(states[c], steps[c], states[c + 1]);
    RunKeepsInv(states, steps, c);
    if steps[c].Commit? && Moves(states[c].running[steps[c].tx]) {
      var m := steps[c].tx;
      var a := FindScan(states, steps, m, c);
      if Missing(states[c], m) != {} {
        var k :| k in Missing(states[c], m);
        MissingIsLate(states, steps, m, a, c, k);
        var j :| a < j < c && ArrivesAt(states, m, j, c, k);
        ArrivesPutBelow(states, steps, m, j, c, k);
        assert LateRow(states, steps, m, a, j, c, k);
      }
      forall a', j, k | LateRow(states, steps, m, a', j, c, k) ensures k in Missing(states[c], m) {
        MissingIsLate(states, steps, m, a', c, k);
      }
    }
  }

  lemma ArrivesPutBelow(states: seq<State>, steps: seq<Step>, m: Id, j: nat, c: nat, k: Id)
    requires IsRun(states, steps) && j < c < |states| && AllTrees(states, c)
    requires Rewriting(states[j], m) && ArrivesAt(states, m, j, c, k)
    ensures PutsBelow(states[j], steps[j], m, k)
  {
    RunKeepsInv(states, steps, j);
    assert Follows(states[j], steps[j], states[j + 1]);
    ArrivalIsPutBelow(states[j], steps[j], m, k);
  }

  ghost predicate NoLateCommit(states: seq<State>, steps: seq<Step>, n: nat)
    requires n < |states| && n <= |steps|
  {
    forall c {:trigger CommitsOverLateRow(states, steps, c)} :: 0 <= c < n ==> !CommitsOverLateRow(states, steps, c)
  }

  lemma OneMoreCommit(states: seq<State>, steps: seq<Step>, n: nat)
    requires 0 < n < |states| && n <= |steps|
    ensures NoLateCommit(states, steps, n) <==>
            NoLateCommit(states, steps, n - 1) && !CommitsOverLateRow(states, steps, n - 1)
    ensures NothingMissed(states, steps, n) <==>
            NothingMissed(states, steps, n - 1) && !MissesRow(states[n - 1], steps[n - 1])
  {
    if NoLateCommit(states, steps, n - 1) && !CommitsOverLateRow(states, steps, n - 1) {
      forall c | 0 <= c < n ensures !CommitsOverLateRow(states, steps, c) {
        if c == n - 1 {
          assert !CommitsOverLateRow(states, steps, n - 1);
        } else {
          assert 0 <= c < n - 1;
        }
      }
    }
  }

  /** In any run the committed table is a tree all along exactly if no move commits over a late row: a row that
    another transaction committed under a proper descendant of the moved category after the rewrite had looked. */
  lemma {:induction false} InterleavedTreesExactly(states: seq<State>, steps: seq<Step>, n: nat)
    requires IsRun(states, steps) && n < |states|
    ensures AllTrees(states, n) <==> NoLateCommit(states, steps, n)
  {
    TreesExactly(states, steps, n);
    if n > 0 {
      InterleavedTreesExactly(states, steps, n - 1);
      TreesExactly(states, steps, n - 1);
      OneMoreCommit(states, steps, n);
      if AllTrees(states, n - 1) {
        MissedIsLate(states, steps, n - 1);
      }
    }
  }
}
