/** The statements the category routes issue, row by row. */
module CategoryStore {
  import opened CategoryTree
  import opened Wrappers

  datatype Asset = Asset(laboratory: Id, category: Option<Id>)

  class Store {
    var categories: Table
    var assets: map<Id, Asset>

    /** Assets are filed under categories of their own laboratory. */
    ghost predicate Filed()
      reads this
    {
      forall a :: a in assets && assets[a].category.Some? ==>
                    && assets[a].category.value in categories
                    && categories[assets[a].category.value].laboratory == assets[a].laboratory
    }

    ghost predicate Valid()
      reads this
    {
      Tree(categories) && Filed()
    }

    constructor ()
      ensures Valid() && categories == map[] && assets == map[]
    {
      categories := map[];
      assets := map[];
    }

    method CreateCategory(laboratory: Id, id: Id, parent: Option<Id>, name: string, code: string)
      returns (r: Result<Category, CategoryError>)
      requires Valid() && Admissible(categories, Create(laboratory, id, parent, name, code))
      modifies this`categories
      ensures Valid()
      ensures var after := Apply(old(categories), Create(laboratory, id, parent, name, code));
              && (r.Success? <==> after.Success?)
              && (r.Success? ==> categories == after.value && r.value == categories[id])
              && (r.Failure? ==> categories == old(categories) && after == Failure(r.error))
    {
      RequestKeepsTree(categories, Create(laboratory, id, parent, name, code));
      var above := ResolveNewParent(categories, laboratory, parent);
      if above.Failure? {
        return Failure(above.error);
      }
      var row := NewRow(categories, laboratory, above.value, name, code);
      if !Accepted(categories, id, row) {
        return Failure(Conflict);
      }
      categories := categories[id := row];
      r := Success(row);
    }

    /** An update: settles name, code and parent, places the row below the parent, and moves it there. */
    method UpdateCategory(id: Id, newParent: NullableUpdate<Id>, newName: Option<string>, newCode: Option<string>)
      returns (r: Result<Category, CategoryError>)
      requires Valid() && Admissible(categories, Update(id, newParent, newName, newCode))
      modifies this`categories
      ensures Valid()
      ensures var after := Apply(old(categories), Update(id, newParent, newName, newCode));
              && (r.Success? <==> after.Success?)
              && (r.Success? ==> categories == after.value && r.value == categories[id])
              && (r.Failure? ==> categories == old(categories) && after == Failure(r.error))
    {
      if id !in categories {
        return Failure(CategoryNotFound);
      }
      PathsNonEmpty(categories);
      var existing := categories[id];
      var name := if newName.Some? then newName.value else existing.name;
      var code := if newCode.Some? then newCode.value else existing.code;
      var above := ResolveMovedParent(categories, id, newParent.Resolve(existing.parent));
      if above.Failure? {
        return Failure(above.error);
      }
      MoveIsAccepted(categories, id, newParent.Resolve(existing.parent), name, code);
      r := MoveCategory(id, MovedRow(categories, id, above.value, name, code));
    }

    method MoveCategory(id: Id, row: Category) returns (r: Result<Category, CategoryError>)
      requires Valid() && id in categories
      requires Accepted(categories, id, row) ==> MoveAccepted(categories, id, row)
      modifies this`categories
      ensures Valid()
      ensures r == if Accepted(old(categories), id, row) then Success(row) else Failure(Conflict)
      ensures categories == if r.Success? then Moved(old(categories), id, row) else old(categories)
    {
      var existing := categories[id];
      if !Accepted(categories, id, row) {
        return Failure(Conflict);
      }
      ghost var before := categories;
      MoveKeepsTree(before, id, row);
      assert Placed(before, id) && Placed(Moved(before, id, row), id);
      categories := categories[id := row];
      if row.path != existing.path || row.depth != existing.depth {
        assert categories == PartlyMoved(before, id, row, {});
        var rewritten := UpdateDescendantPaths(before, id, existing.path, row);
        assert rewritten.Success?;
      } else {
        SamePathMovesNothing(before, id, row);
      }
      r := Success(row);
    }

    /** The bulk rewrite, one row at a time in any order, with the unique index checked
      at every row. It cannot fail: no order of the rows ever meets a duplicate path
      or a path too short to cut. */
    method UpdateDescendantPaths(ghost before: Table, id: Id, oldPath: seq<string>, row: Category)
      returns (r: Result<(), CategoryError>)
      requires MoveAccepted(before, id, row) && oldPath == before[id].path
      requires categories == PartlyMoved(before, id, row, {}) && row.path != oldPath
      modifies this`categories
      ensures r.Success? && categories == Moved(before, id, row)
    {
      NewPathIsApart(before, id, row);
      TargetsAreBelow(before, id, row);
      var rest := set k | k in categories && k != id && categories[k].laboratory == row.laboratory
                            && oldPath <= categories[k].path;
      ghost var done := {};
      while rest != {}
        invariant rest !! done && rest + done == Below(before, id)
        invariant categories == PartlyMoved(before, id, row, done)
      {
        var k :| k in rest;
        NextRewriteIsFree(before, id, row, done, k);
        if |categories[k].path| <= |oldPath| {
          return Failure(Conflict);
        }
        var rewritten := Rehung(categories[k], oldPath, row.path);
        if !PathIsFree(categories, k, rewritten) {
          return Failure(Conflict);
        }
        categories := categories[k := rewritten];
        rest, done := rest - {k}, done + {k};
      }
      r := Success(());
    }

    /** Deletes a category with everything below it; assets filed there are cleared first.
      The foreign keys are checked behind the delete, and never object. */
    method DeleteCategory(id: Id) returns (r: Result<set<Id>, CategoryError>)
      requires Valid()
      modifies this`categories, this`assets
      ensures Valid()
      ensures r.Success? <==> id in old(categories)
      ensures r.Failure? ==> r.error == CategoryNotFound && categories == old(categories) && assets == old(assets)
      ensures r.Success? ==>
                && categories == Without(old(categories), Subtree(old(categories), id))
                && r.value == (set a | a in old(assets) && old(assets)[a].category.Some?
                                         && Reaches(old(categories), old(assets)[a].category.value, id))
                && assets.Keys == old(assets).Keys
                && (forall a :: a in assets ==>
                      assets[a] == if a in r.value then old(assets)[a].(category := None) else old(assets)[a])
    {
      if id !in categories {
        return Failure(CategoryNotFound);
      }
      ghost var before := categories;
      DeleteKeepsTree(categories, id);
      var subtree := Subtree(categories, id);
      var laboratory := categories[id].laboratory;
      var cleared := set a | a in assets && assets[a].laboratory == laboratory && assets[a].category.Some?
                               && assets[a].category.value in subtree;
      forall a | a in assets && assets[a].category.Some?
        ensures a in cleared <==> Reaches(categories, assets[a].category.value, id)
      {
        SubtreeIsReachability(categories, id, assets[a].category.value);
      }
      var keptAssets := map a | a in assets :: if a in cleared then assets[a].(category := None) else assets[a];
      var keptCategories := map k | k in categories && k !in subtree :: categories[k];
      forall k | k in keptCategories
        ensures keptCategories[k].parent.Some? ==> keptCategories[k].parent.value !in subtree
      {
        SubtreeIsClosed(before, id, k);
      }
      if (exists k :: k in keptCategories && keptCategories[k].parent.Some?
                      && keptCategories[k].parent.value in subtree)
         || (exists a :: a in keptAssets && keptAssets[a].category.Some? && keptAssets[a].category.value in subtree) {
        return Failure(Conflict);
      }
      assets := keptAssets;
      categories := keptCategories;
      r := Success(cleared);
    }
  }

  /** After the category's own row is written, the rows under its old path are still its old descendants. */
  lemma TargetsAreBelow(before: Table, id: Id, row: Category)
    requires MoveAccepted(before, id, row)
    ensures var t := PartlyMoved(before, id, row, {});
            Below(before, id) == set k | k in t && k != id && t[k].laboratory == row.laboratory
                                           && before[id].path <= t[k].path
  {
  }

  /** The unique index on paths, for the row stored under `k`. */
  predicate PathIsFree(t: Table, k: Id, row: Category) {
    forall other :: other in t && other != k ==> t[other].laboratory != row.laboratory || t[other].path != row.path
  }

  lemma NextRewriteIsFree(before: Table, id: Id, row: Category, done: set<Id>, k: Id)
    requires MoveAccepted(before, id, row)
    requires done <= Below(before, id) && k in Below(before, id) && k !in done
    ensures var t := PartlyMoved(before, id, row, done);
            && k in t && before[id].path <= t[k].path && |t[k].path| > |before[id].path|
            && var rewritten := Rehung(t[k], before[id].path, row.path);
            && PathIsFree(t, k, rewritten)
            && t[k := rewritten] == PartlyMoved(before, id, row, done + {k})
  {
    BelowIsLonger(before, id, k);
    NeverCollides(before, id, row, done + {k});
    var t, t' := PartlyMoved(before, id, row, done), PartlyMoved(before, id, row, done + {k});
    forall other | other in t && other != k ensures t'[other] == t[other] && !SamePath(t', other, k) {
    }
  }
}
