/** Two runs in which a move commits over a late row, and the table stops being a tree.

  Category 1 holds category 2. While category 1 gets another code, a category is created below
  category 2, or moved there; category 2 is free for it until the rewrite gets that far. */
module CategoryRaces {
  import opened CategoryPaths
  import CategoryTree
  import opened CategoryInterleaving
  import opened Wrappers

  const ABOVE: CategoryTree.Category := CategoryTree.Category(1, None, "above", "a", ["a"], 0)
  const BELOW: CategoryTree.Category := CategoryTree.Category(1, Some(1), "below", "p", ["a", "p"], 1)
  const ASIDE: CategoryTree.Category := CategoryTree.Category(1, None, "aside", "c", ["c"], 0)
  const RENAMED: CategoryTree.Category := CategoryTree.Category(1, None, "above", "b", ["b"], 0)
  const CREATED: CategoryTree.Category := CategoryTree.Category(1, Some(2), "late", "x", ["a", "p", "x"], 2)
  const MOVED: CategoryTree.Category := CategoryTree.Category(1, Some(2), "aside", "c", ["a", "p", "c"], 2)

  /** The rename under way: it has looked for the rows below, and found category 2. */
  const RENAME: Transaction :=
    Transaction(CategoryTree.Update(1, CategoryTree.Unchanged, None, Some("b")), Some(ABOVE), Some(RENAMED), 1, {2}, {})

  lemma Stepped(states: seq<State>, steps: seq<Step>, step: Step)
    returns (states': seq<State>, steps': seq<Step>)
    requires IsRun(states, steps) && Enabled(states[|steps|], step)
    ensures IsRun(states', steps') && |steps'| == |steps| + 1
    ensures states'[|steps'|] == Apply(states[|steps|], step)
  {
    states', steps' := states + [Apply(states[|steps|], step)], steps + [step];
    forall i {:trigger steps'[i]} | 0 <= i < |steps'| ensures Follows(states'[i], steps'[i], states'[i + 1]) {
      if i < |steps| {
        assert Follows(states[i], steps[i], states[i + 1]);
      }
    }
  }

  lemma Unlocked(locks: map<CategoryTree.Id, CategoryTree.Id>, k: Option<CategoryTree.Id>, tx: CategoryTree.Id)
    requires (k.Some? ==> k.value !in locks) && forall i :: i in locks ==> locks[i] != tx
    ensures var more := if k.Some? then locks[k.value := tx] else locks;
            (map i | i in more && more[i] != tx :: more[i]) == locks
  {
    var more := if k.Some? then locks[k.value := tx] else locks;
    var kept := map i | i in more && more[i] != tx :: more[i];
    forall i ensures i in kept <==> i in locks {
    }
    forall i | i in locks ensures kept[i] == locks[i] {
    }
  }

  /** Neither of the two lies below the other. */
  lemma Apart(x: string, y: string, path: seq<string>)
    requires x != y
    ensures !([x] <= [y] + path) && !([y] + path <= [x])
  {
    assert ([y] + path)[0] == y && [x][0] == x;
  }

  /** A create from beginning to end, beside whatever else is running. */
  lemma Create(states: seq<State>, steps: seq<Step>, tx: CategoryTree.Id, id: CategoryTree.Id,
               parent: Option<CategoryTree.Id>, name: string, code: string, row: CategoryTree.Category)
    returns (states': seq<State>, steps': seq<Step>)
    requires IsRun(states, steps)
    requires var s := states[|steps|];
             && tx !in s.running && id !in s.rows && ValidCode(code)
             && (forall k :: k in s.locks ==> s.locks[k] != tx)
             && (forall o :: o in s.running ==> s.running[o].request.Update?)
             && CategoryTree.ParentFits(s.rows, 1, parent) && (parent.Some? ==> parent.value !in s.locks)
             && row == CategoryTree.NewRow(s.rows, 1, parent, name, code)
             && CategoryTree.Indexed(s.rows[id := row]) && ParentsExist(s.rows[id := row])
    ensures IsRun(states', steps')
    ensures states'[|steps'|] == states[|steps|].(rows := states[|steps|].rows[id := row])
  {
    states', steps' := Stepped(states, steps, Begin(tx, CategoryTree.Create(1, id, parent, name, code)));
    states', steps' := Stepped(states', steps', LockParent(tx));
    states', steps' := Stepped(states', steps', Commit(tx));
    Unlocked(states[|steps|].locks, parent, tx);
    assert states'[|steps'|].running == states[|steps|].running;
  }

  /** The rename gets as far as looking for the rows below. */
  lemma StartRename(states: seq<State>, steps: seq<Step>, t: CategoryTree.Table)
    returns (states': seq<State>, steps': seq<Step>)
    requires IsRun(states, steps) && states[|steps|] == State(t, map[], map[])
    requires 1 in t && t[1] == ABOVE && Descendants(t, 1, ABOVE) == {2}
    ensures IsRun(states', steps') && states'[|steps'|] == State(t, map[1 := 10], map[10 := RENAME])
  {
    states', steps' := Stepped(states, steps, Begin(10, RENAME.request));
    states', steps' := Stepped(states', steps', LockOwn(10));
    states', steps' := Stepped(states', steps', LockParent(10));
    states', steps' := Stepped(states', steps', Scan(10));
  }

  /** The rename visits category 2, and commits. */
  lemma FinishRename(states: seq<State>, steps: seq<Step>, t: CategoryTree.Table, t': CategoryTree.Table)
    returns (states': seq<State>, steps': seq<Step>)
    requires IsRun(states, steps) && states[|steps|] == State(t, map[1 := 10], map[10 := RENAME])
    requires 1 in t && 2 in t && t[1] == ABOVE && t[2] == BELOW
    requires t' == t[1 := RENAMED][2 := BELOW.(path := ["b", "p"])] && CategoryTree.Indexed(t') && ParentsExist(t')
    ensures IsRun(states', steps') && states'[|steps'|].rows == t'
  {
    states', steps' := Stepped(states, steps, Visit(10, 2));
    var x := states'[|steps'|].running[10];
    assert x.left == {} && x.taken == {2};
    assert BELOW.path[1..] == ["p"] && ["b"] + ["p"] == ["b", "p"];
    assert CategoryTree.Rehung(BELOW, ["a"], ["b"]) == t'[2];
    forall k | k in t ensures Outcome(t, x)[k] == t'[k] {
    }
    assert Outcome(t, x) == t';
    states', steps' := Stepped(states', steps', Commit(10));
  }

  // ---------------------------------------------------------------------------
  // the runs
  // ---------------------------------------------------------------------------

  /** Category 1, with category 2 below it. */
  lemma TwoCategories() returns (states: seq<State>, steps: seq<Step>)
    ensures IsRun(states, steps) && states[|steps|] == State(map[1 := ABOVE, 2 := BELOW], map[], map[])
  {
    states, steps := [State(map[], map[], map[])], [];
    states, steps := Create(states, steps, 1, 1, None, "above", "a", ABOVE);
    states, steps := Create(states, steps, 2, 2, Some(1), "below", "p", BELOW);
    assert states[|steps|].rows == map[1 := ABOVE, 2 := BELOW];
  }

  /** While the rename is open, a category is created below category 2. */
  lemma LateCreate() returns (states: seq<State>, steps: seq<Step>)
    ensures IsRun(states, steps)
    ensures states[|steps|].rows == map[1 := RENAMED, 2 := BELOW.(path := ["b", "p"]), 3 := CREATED]
    ensures !CategoryTree.Tree(states[|steps|].rows)
  {
    var t := map[1 := ABOVE, 2 := BELOW];
    states, steps := TwoCategories();
    states, steps := StartRename(states, steps, t);
    states, steps := Create(states, steps, 11, 3, Some(2), "late", "x", CREATED);
    var t' := t[3 := CREATED];
    states, steps := FinishRename(states, steps, t', t'[1 := RENAMED][2 := BELOW.(path := ["b", "p"])]);
    assert CREATED.path[0] == "a" && (["b", "p"] + ["x"])[0] == "b";
    assert !CategoryTree.Placed(states[|steps|].rows, 3);
  }

  /** While the rename is open, category 3 is moved below category 2. */
  lemma LateMove() returns (states: seq<State>, steps: seq<Step>)
    ensures IsRun(states, steps)
    ensures states[|steps|].rows == map[1 := RENAMED, 2 := BELOW.(path := ["b", "p"]), 3 := MOVED]
    ensures !CategoryTree.Tree(states[|steps|].rows)
  {
    var t := map[1 := ABOVE, 2 := BELOW, 3 := ASIDE];
    states, steps := TwoCategories();
    Apart("a", "c", []);
    states, steps := Create(states, steps, 3, 3, None, "aside", "c", ASIDE);
    assert Descendants(t, 1, ABOVE) == {2} by {
      assert ["a"] + ["p"] == ["a", "p"];
    }
    states, steps := StartRename(states, steps, t);
    var t' := t[3 := MOVED];
    states, steps := MoveAside(states, steps, t, t');
    states, steps := FinishRename(states, steps, t', t'[1 := RENAMED][2 := BELOW.(path := ["b", "p"])]);
    assert MOVED.path[0] == "a" && (["b", "p"] + ["c"])[0] == "b";
    assert !CategoryTree.Placed(states[|steps|].rows, 3);
  }

  lemma MoveAside(states: seq<State>, steps: seq<Step>, t: CategoryTree.Table, t': CategoryTree.Table)
    returns (states': seq<State>, steps': seq<Step>)
    requires IsRun(states, steps) && states[|steps|] == State(t, map[1 := 10], map[10 := RENAME])
    requires t == map[1 := ABOVE, 2 := BELOW, 3 := ASIDE] && t' == t[3 := MOVED]
    ensures IsRun(states', steps') && states'[|steps'|] == State(t', map[1 := 10], map[10 := RENAME])
  {
    var request := CategoryTree.Update(3, CategoryTree.Set(2), None, None);
    Apart("c", "a", ["p"]);
    Apart("c", "a", []);
    assert ["a"] + ["p"] == ["a", "p"];
    states', steps' := Stepped(states, steps, Begin(11, request));
    states', steps' := Stepped(states', steps', LockOwn(11));
    states', steps' := Stepped(states', steps', LockParent(11));
    var s := states'[|steps'|];
    assert s.running[11] == Transaction(request, Some(ASIDE), Some(MOVED), 0, {}, {}) by {
      assert ["a", "p"] + ["c"] == ["a", "p", "c"];
    }
    assert s.locks == map[1 := 10, 3 := 11, 2 := 11] && s.rows == t;
    states', steps' := ScanAndCommit(states', steps', t, t', s.running[11]);
  }

  lemma ScanAndCommit(states: seq<State>, steps: seq<Step>, t: CategoryTree.Table, t': CategoryTree.Table,
                      x: Transaction)
    returns (states': seq<State>, steps': seq<Step>)
    requires IsRun(states, steps)
    requires states[|steps|] == State(t, map[1 := 10, 3 := 11, 2 := 11], map[10 := RENAME, 11 := x])
    requires t == map[1 := ABOVE, 2 := BELOW, 3 := ASIDE] && t' == t[3 := MOVED]
    requires x.request == CategoryTree.Update(3, CategoryTree.Set(2), None, None)
    requires x == Transaction(x.request, Some(ASIDE), Some(MOVED), 0, {}, {})
    ensures IsRun(states', steps') && states'[|steps'|] == State(t', map[1 := 10], map[10 := RENAME])
  {
    NothingBelowAside(t);
    states', steps' := Stepped(states, steps, Scan(11));
    var y := states'[|steps'|].running[11];
    assert y == x.(scans := 1);
    AsideMoved(t, t', y);
    states', steps' := Stepped(states', steps', Commit(11));
    assert states'[|steps'|].locks == map[1 := 10];
    assert states'[|steps'|].running == map[10 := RENAME];
  }

  lemma NothingBelowAside(t: CategoryTree.Table)
    requires t == map[1 := ABOVE, 2 := BELOW, 3 := ASIDE]
    ensures Descendants(t, 3, ASIDE) == {}
  {
    Apart("c", "a", ["p"]);
    Apart("c", "a", []);
    assert ["a"] + ["p"] == ["a", "p"];
  }

  lemma AsideMoved(t: CategoryTree.Table, t': CategoryTree.Table, x: Transaction)
    requires t == map[1 := ABOVE, 2 := BELOW, 3 := ASIDE] && t' == t[3 := MOVED]
    requires x.request.Update? && x.request.id == 3 && x.row == Some(MOVED) && x.existing == Some(ASIDE)
    requires x.taken == {}
    ensures Outcome(t, x) == t' && CategoryTree.Indexed(t') && ParentsExist(t')
  {
  }
}
