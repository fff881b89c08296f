/** The category tree: parent pointers on one side, materialised paths on the other.

  The functions here say what a create, an update and a delete do to the table
  of categories; `CategoryStore` carries them out row by row. */
module CategoryTree {
  import opened CategoryPaths
  import opened Wrappers

  type Id = int

  datatype Category = Category(
    laboratory: Id,
    parent: Option<Id>,
    name: string,
    code: string,
    path: seq<string>,
    depth: int)

  type Table = map<Id, Category>

  datatype CategoryError =
    | CategoryNotFound
    | ParentNotFound
    | ParentInOtherLaboratory
    | MovedUnderItself
    | MovedUnderDescendant
    | Conflict

  // ---------------------------------------------------------------------------
  // the invariant
  // ---------------------------------------------------------------------------

  /** The row sits where its parent pointer says: its path is its parent's path plus its code. */
  ghost predicate Placed(t: Table, id: Id)
    requires id in t
  {
    var row := t[id];
    && ValidCode(row.code)
    && row.depth == |row.path| - 1
    && match row.parent
       case None => row.path == [row.code]
       case Some(p) => p in t && t[p].laboratory == row.laboratory && row.path == t[p].path + [row.code]
  }

  predicate SamePath(t: Table, a: Id, b: Id)
    requires a in t && b in t
  {
    t[a].laboratory == t[b].laboratory && t[a].path == t[b].path
  }

  ghost predicate UniquePaths(t: Table) {
    forall a, b :: a in t && b in t && SamePath(t, a, b) ==> a == b
  }

  predicate SameSiblingName(t: Table, a: Id, b: Id)
    requires a in t && b in t
  {
    t[a].laboratory == t[b].laboratory && t[a].parent == t[b].parent && t[a].name == t[b].name
  }

  ghost predicate UniqueNames(t: Table) {
    forall a, b :: a in t && b in t && SameSiblingName(t, a, b) ==> a == b
  }

  ghost predicate AllPlaced(t: Table) {
    forall id {:trigger Placed(t, id)} :: id in t ==> Placed(t, id)
  }

  ghost predicate Tree(t: Table) {
    AllPlaced(t) && UniquePaths(t) && UniqueNames(t)
  }

  // ---------------------------------------------------------------------------
  // paths agree with parent pointers
  // ---------------------------------------------------------------------------

  /** The category `k` parent links above `id`, if there is one. */
  ghost function Ancestor(t: Table, id: Id, k: nat): Option<Id>
    decreases k
  {
    if id !in t then None
    else if k == 0 then Some(id)
    else
      match t[id].parent
      case None => None
      case Some(p) => Ancestor(t, p, k - 1)
  }

  /** Is `x` reachable from `id` by parent links? */
  ghost predicate Reaches(t: Table, id: Id, x: Id) {
    exists k: nat :: Ancestor(t, id, k) == Some(x)
  }

  lemma {:induction false} AncestorPath(t: Table, id: Id, k: nat)
    requires AllPlaced(t) && id in t && k < |t[id].path|
    ensures Ancestor(t, id, k).Some? && Ancestor(t, id, k).value in t
    ensures var a := t[Ancestor(t, id, k).value];
            a.laboratory == t[id].laboratory && a.path == t[id].path[..|t[id].path| - k]
    decreases k
  {
    assert Placed(t, id);
    if k > 0 {
      var p := t[id].parent.value;
      AncestorPath(t, p, k - 1);
      var path := t[id].path;
      assert t[p].path == path[..|path| - 1];
      assert path[..|path| - 1][..|path| - k] == path[..|path| - k];
    }
  }

  lemma {:induction false} ChainIsShort(t: Table, id: Id, k: nat)
    requires AllPlaced(t) && id in t && Ancestor(t, id, k).Some?
    ensures k < |t[id].path|
    decreases k
  {
    assert Placed(t, id);
    if k > 0 {
      ChainIsShort(t, t[id].parent.value, k - 1);
    }
  }

  /** Following parent links never comes back: every chain ends at a root. */
  lemma ChainsAreAcyclic(t: Table, id: Id, k: nat)
    requires AllPlaced(t) && id in t && Ancestor(t, id, k) == Some(id)
    ensures k == 0
  {
    ChainIsShort(t, id, k);
    AncestorPath(t, id, k);
  }

  /** Lying under a category's path is the same as reaching it by parent links. */
  lemma PathIsReachability(t: Table, x: Id, id: Id)
    requires Tree(t) && x in t && id in t && t[x].laboratory == t[id].laboratory
    ensures t[x].path <= t[id].path <==> Reaches(t, id, x)
  {
    assert Placed(t, x);
    if t[x].path <= t[id].path {
      var k := |t[id].path| - |t[x].path|;
      AncestorPath(t, id, k);
      var a := Ancestor(t, id, k).value;
      assert SamePath(t, a, x);
    }
    if Reaches(t, id, x) {
      var k: nat :| Ancestor(t, id, k) == Some(x);
      ChainIsShort(t, id, k);
      AncestorPath(t, id, k);
    }
  }

  /** Reachability never leaves the laboratory. */
  lemma ReachStaysInLaboratory(t: Table, x: Id, id: Id)
    requires AllPlaced(t) && id in t && Reaches(t, id, x)
    ensures x in t && t[x].laboratory == t[id].laboratory
  {
    var k: nat :| Ancestor(t, id, k) == Some(x);
    ChainIsShort(t, id, k);
    AncestorPath(t, id, k);
  }

  /** Every non-empty prefix of a category's path is the path of a category. */
  lemma PrefixExists(t: Table, id: Id, prefix: seq<string>) returns (a: Id)
    requires AllPlaced(t) && id in t && prefix != [] && prefix <= t[id].path
    ensures a in t && t[a].laboratory == t[id].laboratory && t[a].path == prefix
  {
    var k := |t[id].path| - |prefix|;
    AncestorPath(t, id, k);
    a := Ancestor(t, id, k).value;
  }

  lemma {:induction false} PathsAreValid(t: Table, id: Id)
    requires AllPlaced(t) && id in t
    ensures ValidPath(t[id].path)
    decreases if id in t then |t[id].path| else 0
  {
    assert Placed(t, id);
    if t[id].parent.Some? {
      PathsAreValid(t, t[id].parent.value);
    }
  }

  // ---------------------------------------------------------------------------
  // create
  // ---------------------------------------------------------------------------

  /** Where a category sits: below its parent, or at a root. */
  function PathBelow(t: Table, parent: Option<Id>, code: string): seq<string>
    requires parent.Some? ==> parent.value in t
  {
    match parent
    case None => [code]
    case Some(p) => t[p].path + [code]
  }

  function DepthBelow(t: Table, parent: Option<Id>): int
    requires parent.Some? ==> parent.value in t
  {
    match parent
    case None => 0
    case Some(p) => t[p].depth + 1
  }

  predicate Clashes(t: Table, id: Id, other: Id, row: Category)
    requires other in t
  {
    && other != id
    && t[other].laboratory == row.laboratory
    && (|| t[other].path == row.path
        || (t[other].parent == row.parent && (t[other].name == row.name || t[other].code == row.code)))
  }

  /** May `row` be stored under `id` without breaking a unique index? */
  predicate Accepted(t: Table, id: Id, row: Category) {
    forall other :: other in t ==> !Clashes(t, id, other, row)
  }

  ghost predicate ParentFits(t: Table, laboratory: Id, parent: Option<Id>) {
    parent.Some? ==> parent.value in t && t[parent.value].laboratory == laboratory
  }

  function NewRow(t: Table, laboratory: Id, parent: Option<Id>, name: string, code: string): Category
    requires parent.Some? ==> parent.value in t
  {
    Category(laboratory, parent, name, code, PathBelow(t, parent, code), DepthBelow(t, parent))
  }

  lemma CreateKeepsTree(t: Table, id: Id, laboratory: Id, parent: Option<Id>, name: string, code: string)
    requires Tree(t) && id !in t && ValidCode(code) && ParentFits(t, laboratory, parent)
    requires Accepted(t, id, NewRow(t, laboratory, parent, name, code))
    ensures Tree(t[id := NewRow(t, laboratory, parent, name, code)])
  {
    var row := NewRow(t, laboratory, parent, name, code);
    var t' := t[id := row];
    if parent.Some? {
      assert Placed(t, parent.value);
    }
    forall k | k in t' ensures Placed(t', k) {
      if k != id {
        assert Placed(t, k);
      }
    }
    AcceptedKeepsUnique(t, id, row);
  }

  lemma AcceptedKeepsUnique(t: Table, id: Id, row: Category)
    requires UniquePaths(t) && UniqueNames(t) && Accepted(t, id, row)
    ensures UniquePaths(t[id := row]) && UniqueNames(t[id := row])
  {
    var t' := t[id := row];
    forall a, b | a in t' && b in t' && a != b ensures !SamePath(t', a, b) && !SameSiblingName(t', a, b) {
      if a != id && b != id {
        assert !SamePath(t, a, b) && !SameSiblingName(t, a, b);
      } else {
        assert !Clashes(t, id, if a == id then b else a, row);
      }
    }
  }

  // ---------------------------------------------------------------------------
  // update and move
  // ---------------------------------------------------------------------------

  /** The categories below `id` in the tree, by path. */
  function Below(t: Table, id: Id): set<Id>
    requires id in t
  {
    set k | k in t && k != id && t[k].laboratory == t[id].laboratory && t[id].path <= t[k].path
  }

  predicate MoveFits(t: Table, id: Id, parent: Option<Id>)
    requires id in t
  {
    parent.Some? ==>
      && parent.value != id
      && parent.value in t
      && t[parent.value].laboratory == t[id].laboratory
      && !(t[id].path <= t[parent.value].path)
  }

  function MovedRow(t: Table, id: Id, parent: Option<Id>, name: string, code: string): Category
    requires id in t && (parent.Some? ==> parent.value in t)
  {
    NewRow(t, t[id].laboratory, parent, name, code)
  }

  /** A row below the moved category, hung off the new path. */
  function Rehung(row: Category, oldPath: seq<string>, newPath: seq<string>): Category
    requires oldPath <= row.path
  {
    var path := newPath + row.path[|oldPath|..];
    row.(path := path, depth := |path| - 1)
  }

  /** The table once the category itself and the rows in `done` below it have been rewritten. */
  ghost function PartlyMoved(t: Table, id: Id, row: Category, done: set<Id>): Table
    requires id in t && done <= Below(t, id)
  {
    map k | k in t :: if k == id then row else if k in done then Rehung(t[k], t[id].path, row.path) else t[k]
  }

  ghost function Moved(t: Table, id: Id, row: Category): Table
    requires id in t
  {
    PartlyMoved(t, id, row, Below(t, id))
  }

  /** What the move has to satisfy before its descendants are rewritten: the checks
    of the parent, and the unique indexes on the one row that is updated. */
  ghost predicate MoveAccepted(t: Table, id: Id, row: Category) {
    && Tree(t) && id in t && ValidCode(row.code)
    && MoveFits(t, id, row.parent)
    && row == MovedRow(t, id, row.parent, row.name, row.code)
    && Accepted(t, id, row)
  }

  /** Every row below the category has a strictly longer path, so cutting the old path off is defined. */
  lemma BelowIsLonger(t: Table, id: Id, k: Id)
    requires Tree(t) && id in t && k in Below(t, id)
    ensures |t[k].path| > |t[id].path|
    ensures t[k].parent.Some?
    ensures t[k].parent.value == id || t[k].parent.value in Below(t, id)
  {
    assert Placed(t, k) && Placed(t, id);
    assert !SamePath(t, k, id);
    var p := t[k].parent.value;
    assert t[p].path == t[k].path[..|t[k].path| - 1];
  }

  /** The new path is not inside the subtree that moves, and not above it either. */
  lemma NewPathIsApart(t: Table, id: Id, row: Category)
    requires MoveAccepted(t, id, row)
    ensures row.path == t[id].path || (!(t[id].path <= row.path) && !(row.path <= t[id].path))
  {
    assert Placed(t, id);
    var was := t[id].path;
    if row.parent.Some? {
      var above := t[row.parent.value].path;
      assert row.path == above + [row.code];
      assert |was| <= |above| ==> row.path[..|was|] == above[..|was|];
    }
    if row.path <= was && row.path != was {
      var a := PrefixExists(t, id, row.path);
    }
  }

  /** A row outside the moved subtree never has a path under the new one. */
  lemma OutsiderIsApart(t: Table, id: Id, row: Category, k: Id)
    requires MoveAccepted(t, id, row)
    requires k in t && k != id && k !in Below(t, id) && t[k].laboratory == row.laboratory
    ensures !(row.path <= t[k].path)
  {
    if row.path <= t[k].path {
      var a := PrefixExists(t, k, row.path);
    }
  }

  /** One uniqueness check suffices: whatever part of the descendants has been
    rewritten, in whatever order, no two categories of a laboratory share a path. */
  lemma NeverCollides(t: Table, id: Id, row: Category, done: set<Id>)
    requires MoveAccepted(t, id, row) && done <= Below(t, id)
    ensures UniquePaths(PartlyMoved(t, id, row, done))
  {
    var t' := PartlyMoved(t, id, row, done);
    NewPathIsApart(t, id, row);
    forall a, b | a in t' && b in t' && SamePath(t', a, b) ensures a == b {
      if a != b {
        RewrittenStayApart(t, id, row, done, a, b);
      }
    }
  }

  ghost predicate Rewritten(id: Id, done: set<Id>, k: Id) {
    k == id || k in done
  }

  lemma RewrittenStayApart(t: Table, id: Id, row: Category, done: set<Id>, a: Id, b: Id)
    requires MoveAccepted(t, id, row) && done <= Below(t, id)
    requires a in t && b in t && a != b
    ensures !SamePath(PartlyMoved(t, id, row, done), a, b)
  {
    assert !SamePath(t, a, b);
    if Rewritten(id, done, a) && Rewritten(id, done, b) {
      BothRewritten(t, id, row, done, a, b);
    } else if Rewritten(id, done, a) {
      UntouchedUnderNewPath(t, id, row, b);
      OneRewritten(t, id, row, done, a, b);
    } else if Rewritten(id, done, b) {
      UntouchedUnderNewPath(t, id, row, a);
      OneRewritten(t, id, row, done, b, a);
    }
  }

  /** The new path of a rewritten row. */
  lemma RewrittenPath(t: Table, id: Id, row: Category, done: set<Id>, k: Id)
    requires id in t && done <= Below(t, id) && row.laboratory == t[id].laboratory
    requires k in t && Rewritten(id, done, k)
    ensures t[id].path <= t[k].path && t[k].laboratory == row.laboratory
    ensures PartlyMoved(t, id, row, done)[k].path == row.path + t[k].path[|t[id].path|..]
    ensures PartlyMoved(t, id, row, done)[k].laboratory == t[k].laboratory
  {
    if k == id {
      assert t[k].path[|t[id].path|..] == [];
    }
  }

  lemma SamePrefixCancels(prefix: seq<string>, s: seq<string>, u: seq<string>)
    requires prefix + s == prefix + u
    ensures s == u
  {
    assert (prefix + s)[|prefix|..] == s && (prefix + u)[|prefix|..] == u;
  }

  lemma BothRewritten(t: Table, id: Id, row: Category, done: set<Id>, a: Id, b: Id)
    requires id in t && done <= Below(t, id) && row.laboratory == t[id].laboratory
    requires a in t && b in t && Rewritten(id, done, a) && Rewritten(id, done, b)
    requires !SamePath(t, a, b)
    ensures !SamePath(PartlyMoved(t, id, row, done), a, b)
  {
    RewrittenPath(t, id, row, done, a);
    RewrittenPath(t, id, row, done, b);
    var was := t[id].path;
    var s, u := t[a].path[|was|..], t[b].path[|was|..];
    assert t[a].path == was + s && t[b].path == was + u;
    if row.path + s == row.path + u {
      SamePrefixCancels(row.path, s, u);
    }
  }

  lemma OneRewritten(t: Table, id: Id, row: Category, done: set<Id>, a: Id, b: Id)
    requires id in t && done <= Below(t, id) && row.laboratory == t[id].laboratory
    requires a in t && b in t && Rewritten(id, done, a) && !Rewritten(id, done, b)
    requires t[b].laboratory == row.laboratory && row.path <= t[b].path ==> row.path == t[id].path
    requires !SamePath(t, a, b)
    ensures !SamePath(PartlyMoved(t, id, row, done), a, b)
  {
    RewrittenPath(t, id, row, done, a);
    var s := t[a].path[|t[id].path|..];
    assert t[a].path == t[id].path + s;
    assert row.path <= row.path + s;
  }

  /** A row that is not rewritten lies under the new path only if the path did not change. */
  lemma UntouchedUnderNewPath(t: Table, id: Id, row: Category, k: Id)
    requires MoveAccepted(t, id, row) && k in t && k != id
    ensures t[k].laboratory == row.laboratory && row.path <= t[k].path ==> row.path == t[id].path
  {
    if t[k].laboratory != row.laboratory || !(row.path <= t[k].path) {
    } else if k in Below(t, id) {
      BelowStaysApart(t, id, row, k);
    } else {
      OutsiderIsApart(t, id, row, k);
    }
  }

  lemma BelowStaysApart(t: Table, id: Id, row: Category, k: Id)
    requires MoveAccepted(t, id, row) && k in Below(t, id) && row.path <= t[k].path
    ensures row.path == t[id].path
  {
    var was, path := t[id].path, t[k].path;
    if |row.path| <= |was| {
      assert row.path == path[..|row.path|] == was[..|row.path|];
    } else {
      assert was == path[..|was|] == row.path[..|was|];
    }
    NewPathIsApart(t, id, row);
  }

  lemma MovedIsPlaced(t: Table, id: Id, row: Category, k: Id)
    requires MoveAccepted(t, id, row) && k in t
    ensures Placed(Moved(t, id, row), k)
  {
    var t' := Moved(t, id, row);
    assert Placed(t, k) && Placed(t, id);
    if k == id {
      if row.parent.Some? {
        assert Placed(t, row.parent.value);
        assert t'[row.parent.value] == t[row.parent.value];
      }
    } else if k in Below(t, id) {
      BelowIsLonger(t, id, k);
      var p, was := t[k].parent.value, t[id].path;
      assert Rewritten(id, Below(t, id), p);
      RewrittenPath(t, id, row, Below(t, id), p);
      RewrittenPath(t, id, row, Below(t, id), k);
      assert t[k].path[|was|..] == t[p].path[|was|..] + [t[k].code];
      assert t'[k].path == t'[p].path + [t[k].code];
    } else if t[k].parent.Some? {
      var p := t[k].parent.value;
      assert p != id && p !in Below(t, id);
      assert t'[p] == t[p];
    }
  }

  lemma MovedNames(t: Table, id: Id, row: Category)
    requires MoveAccepted(t, id, row)
    ensures UniqueNames(Moved(t, id, row))
  {
    var t' := Moved(t, id, row);
    forall a, b | a in t' && b in t' && a != b ensures !SameSiblingName(t', a, b) {
      if a != id && b != id {
        assert !SameSiblingName(t, a, b);
      } else {
        assert !Clashes(t, id, if a == id then b else a, row);
      }
    }
  }

  lemma MoveKeepsTree(t: Table, id: Id, row: Category)
    requires MoveAccepted(t, id, row)
    ensures Tree(Moved(t, id, row))
  {
    forall k | k in Moved(t, id, row) ensures Placed(Moved(t, id, row), k) {
      MovedIsPlaced(t, id, row, k);
    }
    NeverCollides(t, id, row, Below(t, id));
    MovedNames(t, id, row);
  }

  /** A move that leaves the path alone leaves every descendant alone. */
  lemma SamePathMovesNothing(t: Table, id: Id, row: Category)
    requires MoveAccepted(t, id, row) && row.path == t[id].path
    ensures Moved(t, id, row) == t[id := row]
  {
    forall k | k in Below(t, id) ensures Rehung(t[k], t[id].path, row.path) == t[k] {
      assert Placed(t, k);
      assert row.path + t[k].path[|row.path|..] == t[k].path;
    }
  }

  predicate SameLinks(a: Category, b: Category) {
    a.laboratory == b.laboratory && a.parent == b.parent && a.name == b.name && a.code == b.code
  }

  /** Paths and depths carry no information of their own: the parent links fix them. */
  lemma {:induction false} LinksDetermineRow(t: Table, t': Table, k: Id)
    requires Tree(t) && Tree(t') && t.Keys == t'.Keys && forall x :: x in t ==> SameLinks(t[x], t'[x])
    requires k in t
    ensures t[k] == t'[k]
    decreases |t[k].path|
  {
    assert Placed(t, k) && Placed(t', k) && SameLinks(t[k], t'[k]);
    if t[k].parent.Some? {
      LinksDetermineRow(t, t', t[k].parent.value);
    }
  }

  lemma LinksDetermineTree(t: Table, t': Table)
    requires Tree(t) && Tree(t') && t.Keys == t'.Keys && forall x :: x in t ==> SameLinks(t[x], t'[x])
    ensures t == t'
  {
    forall k | k in t ensures t[k] == t'[k] {
      LinksDetermineRow(t, t', k);
    }
  }

  lemma MovedLinks(t: Table, id: Id, row: Category)
    requires MoveAccepted(t, id, row)
    ensures Moved(t, id, row).Keys == t.Keys
    ensures forall k :: k in t ==> SameLinks(Moved(t, id, row)[k], if k == id then row else t[k])
  {
  }

  /** The rewrite is forced: of all tables in which the links are those of the moved category
    and otherwise those of before, only the one that the move leaves behind is a tree. */
  lemma MoveIsForced(t: Table, id: Id, row: Category, t': Table)
    requires MoveAccepted(t, id, row) && Tree(t') && t'.Keys == t.Keys
    requires forall k :: k in t ==> SameLinks(t'[k], if k == id then row else t[k])
    ensures t' == Moved(t, id, row)
  {
    MoveKeepsTree(t, id, row);
    MovedLinks(t, id, row);
    LinksDetermineTree(Moved(t, id, row), t');
  }

  // ---------------------------------------------------------------------------
  // delete
  // ---------------------------------------------------------------------------

  function Subtree(t: Table, id: Id): set<Id>
    requires id in t
  {
    Below(t, id) + {id}
  }

  ghost function Without(t: Table, gone: set<Id>): Table {
    map k | k in t && k !in gone :: t[k]
  }

  /** Nothing that survives a subtree delete points into the subtree. */
  lemma SubtreeIsClosed(t: Table, id: Id, k: Id)
    requires Tree(t) && id in t && k in t && k !in Subtree(t, id)
    ensures t[k].parent.Some? ==> t[k].parent.value !in Subtree(t, id)
  {
    assert Placed(t, k);
  }

  lemma DeleteKeepsTree(t: Table, id: Id)
    requires Tree(t) && id in t
    ensures Tree(Without(t, Subtree(t, id)))
  {
    var t' := Without(t, Subtree(t, id));
    forall k | k in t' ensures Placed(t', k) {
      assert Placed(t, k);
      SubtreeIsClosed(t, id, k);
    }
    forall a, b | a in t' && b in t' && (SamePath(t', a, b) || SameSiblingName(t', a, b)) ensures a == b {
      assert SamePath(t, a, b) || SameSiblingName(t, a, b);
    }
  }

  /** The path range a delete removes is exactly what hangs below the category by parent links. */
  lemma SubtreeIsReachability(t: Table, id: Id, k: Id)
    requires Tree(t) && id in t && k in t
    ensures k in Subtree(t, id) <==> Reaches(t, k, id)
  {
    if t[k].laboratory == t[id].laboratory {
      PathIsReachability(t, id, k);
      if k == id {
        assert Ancestor(t, k, 0) == Some(id);
      }
    } else if Reaches(t, k, id) {
      ReachStaysInLaboratory(t, id, k);
    }
  }

  // ---------------------------------------------------------------------------
  // a rewrite that misses rows
  // ---------------------------------------------------------------------------

  /** All unique indexes, on a whole table. */
  ghost predicate Indexed(t: Table) {
    forall id {:trigger Accepted(t, id, t[id])} :: id in t ==> Accepted(t, id, t[id])
  }

  lemma IndexedIsUnique(t: Table)
    requires Indexed(t)
    ensures UniquePaths(t) && UniqueNames(t)
  {
    forall a, b | a in t && b in t && a != b ensures !SamePath(t, a, b) && !SameSiblingName(t, a, b) {
      assert Accepted(t, a, t[a]);
      assert !Clashes(t, a, b, t[a]);
    }
  }

  /** If the indexes accept the outcome of a move, whatever rows it rewrote, they accept the moved row. */
  lemma OutcomeIsAccepted(t: Table, id: Id, row: Category, done: set<Id>)
    requires Tree(t) && id in t && ValidCode(row.code) && MoveFits(t, id, row.parent)
    requires row == MovedRow(t, id, row.parent, row.name, row.code)
    requires done <= Below(t, id) && Indexed(PartlyMoved(t, id, row, done))
    ensures MoveAccepted(t, id, row)
  {
    var t' := PartlyMoved(t, id, row, done);
    assert t'[id] == row && Accepted(t', id, t'[id]);
    forall other | other in t && other != id ensures !Clashes(t, id, other, row) {
      if other in done {
        BelowDoesNotClash(t, id, row, other);
      } else {
        assert t'[other] == t[other] && !Clashes(t', id, other, row);
      }
    }
  }

  lemma BelowDoesNotClash(t: Table, id: Id, row: Category, k: Id)
    requires Tree(t) && id in t && MoveFits(t, id, row.parent) && k in Below(t, id)
    requires row == MovedRow(t, id, row.parent, row.name, row.code)
    ensures !Clashes(t, id, k, row)
  {
    assert Placed(t, id);
    BelowIsLonger(t, id, k);
    if row.parent.Some? {
      if t[id].path <= row.path {
        PrefixOfOneMore(t[id].path, t[row.parent.value].path, row.code);
      }
    }
  }

  lemma PrefixOfOneMore(prefix: seq<string>, path: seq<string>, code: string)
    requires prefix <= path + [code]
    ensures prefix <= path || prefix == path + [code]
  {
    var longer := path + [code];
    if |prefix| <= |path| {
      assert prefix == longer[..|prefix|] && longer[..|prefix|] == path[..|prefix|];
    }
  }

  /** A row that was not rewritten, though it lies below the moved category, ends up misplaced, or
    else a row above it does. */
  lemma {:induction false} StaleRow(t: Table, id: Id, row: Category, done: set<Id>, k: Id) returns (stale: Id)
    requires MoveAccepted(t, id, row) && row.path != t[id].path && done <= Below(t, id)
    requires k in Below(t, id) && k !in done
    ensures stale in t && !Placed(PartlyMoved(t, id, row, done), stale)
    decreases |t[k].path|
  {
    assert Placed(t, k);
    BelowIsLonger(t, id, k);
    var p, was, t' := t[k].parent.value, t[id].path, PartlyMoved(t, id, row, done);
    if p != id && p !in done {
      stale := StaleRow(t, id, row, done, p);
    } else {
      assert Rewritten(id, done, p);
      RewrittenPath(t, id, row, done, p);
      var suffix := t[p].path[|was|..] + [t[k].code];
      assert t'[p].path + [t[k].code] == row.path + suffix && t[k].path == was + suffix;
      SameSuffixCancels(row.path, was, suffix);
      stale := k;
    }
  }

  /** A move that changes the path leaves a tree exactly if it rewrites every row below. */
  lemma RewriteMustBeComplete(t: Table, id: Id, row: Category, done: set<Id>)
    requires MoveAccepted(t, id, row) && row.path != t[id].path && done <= Below(t, id)
    ensures Tree(PartlyMoved(t, id, row, done)) <==> done == Below(t, id)
  {
    if done == Below(t, id) {
      MoveKeepsTree(t, id, row);
    } else {
      var k :| k in Below(t, id) && k !in done;
      var stale := StaleRow(t, id, row, done, k);
      assert !Placed(PartlyMoved(t, id, row, done), stale);
    }
  }

  /** Rows may be deleted as long as no other row refers to them. */
  lemma UnreferencedMayGo(t: Table, gone: set<Id>)
    requires Tree(t) && forall k :: k in t && k !in gone && t[k].parent.Some? ==> t[k].parent.value !in gone
    ensures Tree(Without(t, gone))
  {
    var t' := Without(t, gone);
    forall k | k in t' ensures Placed(t', k) {
      assert Placed(t, k);
    }
    forall a, b | a in t' && b in t' && (SamePath(t', a, b) || SameSiblingName(t', a, b)) ensures a == b {
      assert SamePath(t, a, b) || SameSiblingName(t, a, b);
    }
  }

  lemma SameSuffixCancels(a: seq<string>, b: seq<string>, suffix: seq<string>)
    ensures a + suffix == b + suffix <==> a == b
  {
    if a + suffix == b + suffix {
      assert |a| == |b|;
      assert a == (a + suffix)[..|a|] && b == (b + suffix)[..|b|];
    }
  }

  // ---------------------------------------------------------------------------
  // requests, and runs of requests
  // ---------------------------------------------------------------------------

  datatype NullableUpdate<T> = Unchanged | Set(value: T) | Clear {
    function Resolve(current: Option<T>): Option<T> {
      match this
      case Unchanged => current
      case Set(value) => Some(value)
      case Clear => None
    }
  }

  datatype Request =
    | Create(laboratory: Id, id: Id, parent: Option<Id>, name: string, code: string)
    | Update(id: Id, newParent: NullableUpdate<Id>, newName: Option<string>, newCode: Option<string>)
    | Delete(id: Id)

  /** Requests arrive with parsed codes, and a new category with an id nobody has. */
  predicate Admissible(t: Table, request: Request) {
    match request
    case Create(_, id, _, _, code) => id !in t && ValidCode(code)
    case Update(_, _, _, code) => code.Some? ==> ValidCode(code.value)
    case Delete(_) => true
  }

  function ResolveNewParent(t: Table, laboratory: Id, parent: Option<Id>): Result<Option<Id>, CategoryError> {
    match parent
    case None => Success(None)
    case Some(p) =>
      if p !in t then Failure(ParentNotFound)
      else if t[p].laboratory != laboratory then Failure(ParentInOtherLaboratory)
      else Success(parent)
  }

  function ResolveMovedParent(t: Table, id: Id, parent: Option<Id>): Result<Option<Id>, CategoryError>
    requires id in t && t[id].path != [] && forall k :: k in t ==> t[k].path != []
  {
    match parent
    case None => Success(None)
    case Some(p) =>
      if p == id then Failure(MovedUnderItself)
      else if p !in t then Failure(ParentNotFound)
      else if t[p].laboratory != t[id].laboratory then Failure(ParentInOtherLaboratory)
      else if PathIsSelfOrDescendant(Render(t[p].path), Render(t[id].path)) then Failure(MovedUnderDescendant)
      else Success(parent)
  }

  lemma PathsNonEmpty(t: Table)
    requires AllPlaced(t)
    ensures forall k :: k in t ==> t[k].path != []
  {
    forall k | k in t ensures t[k].path != [] {
      assert Placed(t, k);
    }
  }

  /** The parent check accepts exactly the parents outside the moved subtree. */
  lemma MovedParentFits(t: Table, id: Id, parent: Option<Id>)
    requires Tree(t) && id in t && forall k :: k in t ==> t[k].path != []
    ensures ResolveMovedParent(t, id, parent).Success? <==> MoveFits(t, id, parent)
    ensures ResolveMovedParent(t, id, parent).Success? ==> ResolveMovedParent(t, id, parent).value == parent
    ensures ResolveMovedParent(t, id, parent) == Failure(MovedUnderDescendant) ==>
              parent.Some? && Reaches(t, parent.value, id)
  {
    if parent.Some? && parent.value in t {
      PathsAreValid(t, parent.value);
      PathsAreValid(t, id);
      TextTestIsPrefix(t[parent.value].path, t[id].path);
      if t[parent.value].laboratory == t[id].laboratory {
        PathIsReachability(t, id, parent.value);
      }
    }
  }

  /** What a request does to a table that is a tree. */
  ghost function Apply(t: Table, request: Request): Result<Table, CategoryError>
    requires Tree(t)
  {
    PathsNonEmpty(t);
    match request
    case Create(laboratory, id, parent, name, code) => ApplyCreate(t, laboratory, id, parent, name, code)
    case Update(id, newParent, newName, newCode) =>
      if id !in t then Failure(CategoryNotFound)
      else
        var name := if newName.Some? then newName.value else t[id].name;
        var code := if newCode.Some? then newCode.value else t[id].code;
        ApplyMove(t, id, newParent.Resolve(t[id].parent), name, code)
    case Delete(id) => if id !in t then Failure(CategoryNotFound) else Success(Without(t, Subtree(t, id)))
  }

  ghost function ApplyCreate(t: Table, laboratory: Id, id: Id, parent: Option<Id>, name: string, code: string)
    : Result<Table, CategoryError>
  {
    match ResolveNewParent(t, laboratory, parent)
    case Failure(error) => Failure(error)
    case Success(above) =>
      var row := NewRow(t, laboratory, above, name, code);
      if Accepted(t, id, row) then Success(t[id := row]) else Failure(Conflict)
  }

  ghost function ApplyMove(t: Table, id: Id, parent: Option<Id>, name: string, code: string)
    : Result<Table, CategoryError>
    requires id in t && forall k :: k in t ==> t[k].path != []
  {
    match ResolveMovedParent(t, id, parent)
    case Failure(error) => Failure(error)
    case Success(above) =>
      var row := MovedRow(t, id, above, name, code);
      if Accepted(t, id, row) then Success(Moved(t, id, row)) else Failure(Conflict)
  }

  /** Every successful request leaves a tree. */
  lemma RequestKeepsTree(t: Table, request: Request)
    requires Tree(t) && Admissible(t, request)
    ensures Apply(t, request).Success? ==> Tree(Apply(t, request).value)
  {
    PathsNonEmpty(t);
    match request
    case Create(laboratory, id, parent, name, code) =>
      if ApplyCreate(t, laboratory, id, parent, name, code).Success? {
        CreateKeepsTree(t, id, laboratory, parent, name, code);
      }
    case Update(id, newParent, newName, newCode) =>
      if id in t {
        var parent := newParent.Resolve(t[id].parent);
        var name := if newName.Some? then newName.value else t[id].name;
        var code := if newCode.Some? then newCode.value else t[id].code;
        MoveIsAccepted(t, id, parent, name, code);
      }
    case Delete(id) =>
      if id in t {
        DeleteKeepsTree(t, id);
      }
  }

  lemma MoveIsAccepted(t: Table, id: Id, parent: Option<Id>, name: string, code: string)
    requires Tree(t) && id in t && (forall k :: k in t ==> t[k].path != [])
    requires ValidCode(code) || code == t[id].code
    ensures ApplyMove(t, id, parent, name, code).Success? ==>
              && MoveFits(t, id, parent)
              && MoveAccepted(t, id, MovedRow(t, id, parent, name, code))
              && Tree(ApplyMove(t, id, parent, name, code).value)
  {
    assert Placed(t, id);
    MovedParentFits(t, id, parent);
    if ApplyMove(t, id, parent, name, code).Success? {
      MoveKeepsTree(t, id, MovedRow(t, id, parent, name, code));
    }
  }

  // ---------------------------------------------------------------------------
  // what requests ask for
  // ---------------------------------------------------------------------------

  /** In a tree, a row below `parent` meets the unique indexes exactly if no sibling has its name or its code. */
  lemma AcceptedAmongSiblings(t: Table, id: Id, laboratory: Id, parent: Option<Id>, name: string, code: string)
    requires Tree(t) && ParentFits(t, laboratory, parent)
    requires id in t ==> t[id].laboratory == laboratory
    ensures Accepted(t, id, NewRow(t, laboratory, parent, name, code)) <==>
            forall k :: k in t && k != id && t[k].laboratory == laboratory && t[k].parent == parent ==>
                          t[k].name != name && t[k].code != code
  {
    var row := NewRow(t, laboratory, parent, name, code);
    forall k | k in t && k != id && t[k].laboratory == laboratory
      ensures t[k].path == row.path <==> t[k].parent == parent && t[k].code == code
    {
      SiblingsByPath(t, k, laboratory, parent, code);
    }
    if Accepted(t, id, row) {
      forall k | k in t && k != id && t[k].laboratory == laboratory && t[k].parent == parent
        ensures t[k].name != name && t[k].code != code
      {
        assert !Clashes(t, id, k, row);
      }
    }
  }

  lemma SiblingsByPath(t: Table, k: Id, laboratory: Id, parent: Option<Id>, code: string)
    requires Tree(t) && k in t && t[k].laboratory == laboratory && ParentFits(t, laboratory, parent)
    ensures t[k].path == PathBelow(t, parent, code) <==> t[k].parent == parent && t[k].code == code
  {
    assert Placed(t, k);
    var path := PathBelow(t, parent, code);
    if parent.Some? {
      assert Placed(t, parent.value);
    }
    if t[k].parent.Some? {
      assert Placed(t, t[k].parent.value);
    }
    if t[k].path == path {
      assert t[k].path[|path| - 1] == code && t[k].path[..|path| - 1] == path[..|path| - 1];
      if parent.Some? && t[k].parent.Some? {
        assert t[t[k].parent.value].path == t[parent.value].path;
        assert SamePath(t, t[k].parent.value, parent.value);
      }
    }
  }

  /** A create succeeds exactly if the parent asked for, if any, is a category of the laboratory, and no
    sibling there has the name or the code. The new row is what was asked for; all others stay. */
  lemma CreateMeans(t: Table, laboratory: Id, id: Id, parent: Option<Id>, name: string, code: string)
    requires Tree(t) && id !in t && ValidCode(code)
    ensures var r := Apply(t, Create(laboratory, id, parent, name, code));
            && (r.Success? <==>
                  && (parent.Some? ==> parent.value in t && t[parent.value].laboratory == laboratory)
                  && (forall k :: k in t && t[k].laboratory == laboratory && t[k].parent == parent ==>
                                    t[k].name != name && t[k].code != code))
            && (r.Success? ==>
                  && Tree(r.value) && r.value.Keys == t.Keys + {id} && (forall k :: k in t ==> r.value[k] == t[k])
                  && r.value[id].laboratory == laboratory && r.value[id].parent == parent
                  && r.value[id].name == name && r.value[id].code == code)
            && (r.Failure? ==>
                  r.error == if parent.Some? && parent.value !in t then ParentNotFound
                             else if parent.Some? && t[parent.value].laboratory != laboratory
                             then ParentInOtherLaboratory
                             else Conflict)
  {
    RequestKeepsTree(t, Create(laboratory, id, parent, name, code));
    if parent.Some? ==> parent.value in t && t[parent.value].laboratory == laboratory {
      AcceptedAmongSiblings(t, id, laboratory, parent, name, code);
    }
  }

  /** The parent an update asks for: a given one, none at all, or the one there is. */
  predicate AsksForParent(newParent: NullableUpdate<Id>, existing: Option<Id>, parent: Option<Id>) {
    && (newParent.Set? ==> parent == Some(newParent.value))
    && (newParent.Clear? ==> parent == None)
    && (newParent.Unchanged? ==> parent == existing)
  }

  /** An update succeeds exactly if the parent asked for, if any, is a category of the laboratory that is neither
    the category itself nor below it, and no sibling there has the name or the code asked for. Then the category
    has that parent, name and code, and no other one gets another parent, name or code. */
  lemma UpdateMeans(t: Table, id: Id, newParent: NullableUpdate<Id>, newName: Option<string>, newCode: Option<string>,
                    parent: Option<Id>, name: string, code: string)
    requires Tree(t) && id in t && AsksForParent(newParent, t[id].parent, parent)
    requires (newName.Some? ==> name == newName.value) && (newName.None? ==> name == t[id].name)
    requires (newCode.Some? ==> code == newCode.value && ValidCode(code)) && (newCode.None? ==> code == t[id].code)
    ensures var r := Apply(t, Update(id, newParent, newName, newCode));
            && (r.Success? <==>
                  && (parent.Some? ==> parent.value in t && t[parent.value].laboratory == t[id].laboratory
                                       && !Reaches(t, parent.value, id))
                  && (forall k :: k in t && k != id && t[k].laboratory == t[id].laboratory && t[k].parent == parent ==>
                                    t[k].name != name && t[k].code != code))
            && (r.Success? ==>
                  && Tree(r.value) && r.value.Keys == t.Keys
                  && r.value[id].laboratory == t[id].laboratory && r.value[id].parent == parent
                  && r.value[id].name == name && r.value[id].code == code
                  && (forall k :: k in t && k != id ==> SameLinks(r.value[k], t[k])))
            && (r.Failure? ==>
                  r.error == if parent == Some(id) then MovedUnderItself
                             else if parent.Some? && parent.value !in t then ParentNotFound
                             else if parent.Some? && t[parent.value].laboratory != t[id].laboratory
                             then ParentInOtherLaboratory
                             else if parent.Some? && Reaches(t, parent.value, id) then MovedUnderDescendant
                             else Conflict)
  {
    PathsNonEmpty(t);
    MovedParentFits(t, id, parent);
    MoveFitsOutside(t, id, parent);
    MoveIsAccepted(t, id, parent, name, code);
    assert newParent.Resolve(t[id].parent) == parent;
    if ParentFits(t, t[id].laboratory, parent) {
      AcceptedAmongSiblings(t, id, t[id].laboratory, parent, name, code);
    }
    if ApplyMove(t, id, parent, name, code).Success? {
      MovedLinks(t, id, MovedRow(t, id, parent, name, code));
    }
  }

  lemma MoveFitsOutside(t: Table, id: Id, parent: Option<Id>)
    requires Tree(t) && id in t
    ensures MoveFits(t, id, parent) <==>
            (parent.Some? ==> parent.value in t && t[parent.value].laboratory == t[id].laboratory
                              && !Reaches(t, parent.value, id))
    ensures parent.Some? && parent.value in t && parent.value != id
            && t[parent.value].laboratory == t[id].laboratory ==>
              (t[id].path <= t[parent.value].path <==> Reaches(t, parent.value, id))
  {
    assert Ancestor(t, id, 0) == Some(id);
    if parent.Some? && parent.value in t && parent.value != id && t[parent.value].laboratory == t[id].laboratory {
      PathIsReachability(t, id, parent.value);
    }
  }

  /** A delete succeeds exactly if the category exists, and takes along exactly what reaches it by parent links. */
  lemma DeleteMeans(t: Table, id: Id)
    requires Tree(t)
    ensures var r := Apply(t, Delete(id));
            && (r.Success? <==> id in t) && (r.Failure? ==> r.error == CategoryNotFound)
            && (r.Success? ==>
                  && Tree(r.value)
                  && (forall k :: k in r.value <==> k in t && !Reaches(t, k, id))
                  && (forall k :: k in r.value ==> r.value[k] == t[k]))
  {
    RequestKeepsTree(t, Delete(id));
    if id in t {
      forall k | k in t ensures k in Subtree(t, id) <==> Reaches(t, k, id) {
        SubtreeIsReachability(t, id, k);
      }
    }
  }

  /** A request that fails is rolled back. */
  ghost function After(t: Table, request: Request): Table
    requires Tree(t)
  {
    if Apply(t, request).Success? then Apply(t, request).value else t
  }

  /** `states` is a run: it starts empty and each state follows from one admissible request. */
  ghost predicate IsRun(states: seq<Table>, requests: seq<Request>) {
    && |states| == |requests| + 1
    && states[0] == map[]
    && forall i {:trigger requests[i]} :: 0 <= i < |requests| ==> Follows(states[i], requests[i], states[i + 1])
  }

  ghost predicate Follows(t: Table, request: Request, t': Table) {
    Tree(t) ==> Admissible(t, request) && t' == After(t, request)
  }

  /** In every state of every run the table is a tree. */
  lemma {:induction false} RunsKeepTree(states: seq<Table>, requests: seq<Request>, n: nat)
    requires IsRun(states, requests) && n < |states|
    ensures Tree(states[n])
  {
    if n > 0 {
      RunsKeepTree(states, requests, n - 1);
      assert Follows(states[n - 1], requests[n - 1], states[n]);
      RequestKeepsTree(states[n - 1], requests[n - 1]);
    }
  }
}
