/** Which parameters an asset's category requires.

  The query joins categories by path containment; the meaning is a walk up the
  parent chain. */
module RequiredParameters {
  import opened CategoryTree
  import opened Wrappers

  /** A row of the assignment table; asset-level assignments have no category. */
  datatype Assignment = Assignment(category: Option<Id>, parameter: Id, isRequired: bool, appliesToDescendants: bool)

  /** The join of the query: an assignment counts if its category's path contains the current one. */
  predicate Joined(t: Table, laboratory: Id, current: Id, a: Assignment) {
    && current in t && t[current].laboratory == laboratory
    && a.isRequired && a.category.Some? && a.category.value in t
    && t[a.category.value].laboratory == t[current].laboratory
    && t[a.category.value].path <= t[current].path
    && (a.category.value == current || a.appliesToDescendants)
  }

  function FetchRequiredParameters(t: Table, assignments: set<Assignment>, laboratory: Id, current: Id): set<Id> {
    set a | a in assignments && Joined(t, laboratory, current, a) :: a.parameter
  }

  /** What category `c` requires on its own account, or of the categories below it. */
  ghost function RequiredAt(assignments: set<Assignment>, c: Id, inherited: bool): set<Id> {
    set a | a in assignments && a.category == Some(c) && a.isRequired && (inherited ==> a.appliesToDescendants)
      :: a.parameter
  }

  /** Walks the parent chain from `c`: own requirements first, then what every ancestor hands down. */
  ghost function RequiredUpFrom(t: Table, assignments: set<Assignment>, c: Id, inherited: bool): set<Id>
    requires Tree(t) && c in t
    decreases |t[c].path|
  {
    assert Placed(t, c);
    RequiredAt(assignments, c, inherited) +
    match t[c].parent
    case None => {}
    case Some(p) => RequiredUpFrom(t, assignments, p, true)
  }

  lemma {:induction false} WalkMeetsAncestors(t: Table, assignments: set<Assignment>, c: Id, inherited: bool, p: Id)
    requires Tree(t) && c in t
    ensures p in RequiredUpFrom(t, assignments, c, inherited) <==>
            exists a :: a in assignments && a.parameter == p && a.isRequired && a.category.Some?
                        && Reaches(t, c, a.category.value)
                        && (a.appliesToDescendants || (!inherited && a.category.value == c))
    decreases |t[c].path|
  {
    assert Placed(t, c);
    forall x ensures Reaches(t, c, x) <==> x == c || (t[c].parent.Some? && Reaches(t, t[c].parent.value, x)) {
      ReachStep(t, c, x);
    }
    if t[c].parent.Some? {
      WalkMeetsAncestors(t, assignments, t[c].parent.value, true, p);
      NoReturn(t, c);
    }
  }

  lemma ReachStep(t: Table, c: Id, x: Id)
    requires c in t
    ensures Reaches(t, c, x) <==> x == c || (t[c].parent.Some? && Reaches(t, t[c].parent.value, x))
  {
    assert Ancestor(t, c, 0) == Some(c);
    if Reaches(t, c, x) {
      var k: nat :| Ancestor(t, c, k) == Some(x);
      if k > 0 {
        assert Ancestor(t, t[c].parent.value, k - 1) == Some(x);
      }
    }
    if t[c].parent.Some? && Reaches(t, t[c].parent.value, x) {
      var k: nat :| Ancestor(t, t[c].parent.value, k) == Some(x);
      assert Ancestor(t, c, k + 1) == Some(x);
    }
  }

  lemma NoReturn(t: Table, c: Id)
    requires Tree(t) && c in t && t[c].parent.Some?
    ensures !Reaches(t, t[c].parent.value, c)
  {
    if Reaches(t, t[c].parent.value, c) {
      var k: nat :| Ancestor(t, t[c].parent.value, k) == Some(c);
      ChainsAreAcyclic(t, c, k + 1);
    }
  }

  /** The query by path containment finds exactly what the walk up the parent chain finds. */
  lemma QueryIsWalk(t: Table, assignments: set<Assignment>, laboratory: Id, current: Id)
    requires Tree(t) && current in t && t[current].laboratory == laboratory
    ensures FetchRequiredParameters(t, assignments, laboratory, current)
         == RequiredUpFrom(t, assignments, current, false)
  {
    forall p
      ensures p in FetchRequiredParameters(t, assignments, laboratory, current)
         <==> p in RequiredUpFrom(t, assignments, current, false)
    {
      WalkMeetsAncestors(t, assignments, current, false, p);
      forall a | a in assignments && a.category.Some?
        ensures Joined(t, laboratory, current, a) <==>
                a.isRequired && Reaches(t, current, a.category.value)
                && (a.appliesToDescendants || a.category.value == current)
      {
        if a.category.value in t && t[a.category.value].laboratory == laboratory {
          PathIsReachability(t, a.category.value, current);
        } else if Reaches(t, current, a.category.value) {
          ReachStaysInLaboratory(t, a.category.value, current);
        }
      }
    }
  }

  /** Accepts an asset exactly if it has a value for everything its category requires. */
  method ValidateRequiredParameters(t: Table, assignments: set<Assignment>, laboratory: Id, category: Option<Id>,
                                    existing: set<Id>)
    returns (accepted: bool)
    requires Tree(t)
    ensures accepted <==>
            (category.Some? && category.value in t && t[category.value].laboratory == laboratory ==>
               RequiredUpFrom(t, assignments, category.value, false) <= existing)
  {
    if category.None? {
      return true;
    }
    if category.value in t && t[category.value].laboratory == laboratory {
      QueryIsWalk(t, assignments, laboratory, category.value);
    }
    var required := FetchRequiredParameters(t, assignments, laboratory, category.value);
    ghost var all := required;
    while required != {}
      invariant required <= all
      invariant all - required <= existing
    {
      var parameter :| parameter in required;
      if parameter !in existing {
        return false;
      }
      required := required - {parameter};
    }
    return true;
  }
}
