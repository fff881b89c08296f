/** Updating a parameter: its data type, its options and all its stored values, in one transaction.

  Values point at options, so a new enum gets its options before the values move
  onto them, and a former enum loses them after the values have moved off. */
module ParameterTypeChange {
  import opened Wrappers
  import opened OptionLists
  import opened ParameterValues
  import opened EnumMigrations
  import opened MigrationTasks

  /** `OptionInUse`: the delete of an option ran into the foreign key of a value. */
  datatype ParameterError = Validation | Conflict | OptionInUse

  class Parameter {
    var dataType: DataType
    var options: Options
    var values: map<Id, Value>
    /** Where the ids of new options come from. */
    var nextId: Id

    /** What holds behind every statement. */
    ghost predicate Sound()
      reads this
    {
      && CodesUnique(options) && Below(options, nextId) && Referential(values, options)
      && (forall v :: v in values ==> Allowed(values[v]))
    }

    /** What holds between transactions. */
    ghost predicate Valid()
      reads this
    {
      && Sound()
      && (forall v :: v in values ==> values[v].dataType == dataType)
      && (dataType == EnumType <==> options != map[])
    }

    // -------------------------------------------------------------------------
    // options
    // -------------------------------------------------------------------------

    method DeleteOptionsExcept(kept: set<Id>) returns (r: Result<(), ParameterError>)
      requires Sound()
      modifies this`options
      ensures Sound()
      ensures r.Success? <==> forall v :: v in values && values[v].columns.option.Some? ==>
                                values[v].columns.option.value in kept
      ensures r.Success? ==> options == (map o | o in old(options) && o in kept :: old(options)[o])
      ensures r.Failure? ==> r.error == OptionInUse && options == old(options)
    {
      var remaining := map o | o in options && o in kept :: options[o];
      if !Referential(values, remaining) {
        var v :| v in values && !PointsAt(values[v], remaining);
        return Failure(OptionInUse);
      }
      forall v | v in values && values[v].columns.option.Some? ensures values[v].columns.option.value in kept {
        assert PointsAt(values[v], remaining);
      }
      options := remaining;
      r := Success(());
    }

    /** One entry: an update of the matched option, or an insert. */
    method WriteOption(id: Id, row: OptionRow) returns (r: Result<(), ParameterError>)
      requires Sound() && id < nextId
      modifies this`options
      ensures Sound()
      ensures r.Success? <==> CodeIsFree(old(options), id, row.code)
      ensures r.Success? <==> forall o :: o in old(options) && o != id ==> old(options)[o].code != row.code
      ensures r.Success? ==> options == old(options)[id := row]
      ensures r.Failure? ==> r.error == Conflict && options == old(options)
    {
      if !CodeIsFree(options, id, row.code) {
        return Failure(Conflict);
      }
      ghost var before := options;
      options := options[id := row];
      forall a, b | a in options && b in options && options[a].code == options[b].code ensures a == b {
        assert a != id ==> !Holds(before, a, row.code);
        assert b != id ==> !Holds(before, b, row.code);
      }
      assert Referential(values, before);
      forall v | v in values ensures PointsAt(values[v], options) {
        assert PointsAt(values[v], before);
      }
      r := Success(());
    }

    method ReplaceOptions(list: seq<Entry>) returns (r: Result<(), ParameterError>)
      requires Sound() && WellFormed(list)
      modifies this`options, this`nextId
      ensures Sound() && nextId >= old(nextId)
      ensures r.Success? <==> Replaces(old(options), list, old(nextId), values)
      ensures r.Success? ==> options == Written(old(options), list, old(nextId), |list|)
      ensures r.Failure? ==>
                r.error == if !Known(old(options), list) then Validation
                           else if !Referential(values, Retained(old(options), list)) then OptionInUse else Conflict
    {
      var existing, base := options, nextId;
      if !Known(existing, list) {
        return Failure(Validation);
      }
      var deleted := DeleteOptionsExcept(RetainedIds(existing, list));
      KeptReferences(values, existing, list);
      if deleted.Failure? {
        return Failure(deleted.error);
      }
      nextId := base + |list|;
      var k := 0;
      while k < |list|
        invariant 0 <= k <= |list|
        invariant Sound() && nextId == base + |list|
        invariant options == Written(existing, list, base, k)
        invariant forall i :: 0 <= i < k ==> !Blocked(existing, list, base, i)
      {
        CodeIsFreeUnlessBlocked(existing, list, base, k);
        var written := WriteOption(IdFor(existing, list, base, k), list[k].row);
        if written.Failure? {
          return Failure(written.error);
        }
        k := k + 1;
      }
      r := Success(());
    }

    method ApplyOptionUpdates(t: DataType, update: Option<seq<Entry>>) returns (r: Result<(), ParameterError>)
      requires Sound() && (t == EnumType && update.Some? ==> WellFormed(update.value))
      modifies this`options, this`nextId
      ensures Sound() && nextId >= old(nextId)
      ensures t == EnumType && update.None? ==> r.Success? && options == old(options)
      ensures t != EnumType ==>
                && (r.Success? <==> Referential(values, map[]))
                && (r.Success? ==> options == map[])
      ensures t == EnumType && update.Some? ==>
                && (r.Success? <==> Replaces(old(options), update.value, old(nextId), values))
                && (r.Success? ==> options == Written(old(options), update.value, old(nextId), |update.value|))
                && (r.Failure? && Referential(values, map[]) ==> r.error != OptionInUse)
    {
      if t != EnumType {
        r := DeleteOptionsExcept({});
        assert r.Failure? ==> !Referential(values, map[]);
      } else if update.Some? {
        r := ReplaceOptions(update.value);
      } else {
        r := Success(());
      }
    }

    // -------------------------------------------------------------------------
    // values
    // -------------------------------------------------------------------------

    /** A target that names an option by code is turned into one that names it by id,
      creating the option if there is none. */
    method ResolveMigrationTarget(t: DataType, target: Target) returns (r: Result<Target, ParameterError>)
      requires Sound()
      modifies this`options, this`nextId
      ensures Sound() && nextId >= old(nextId)
      ensures !NamesByCode(t, target) ==> r == Success(target) && options == old(options)
      ensures NamesByCode(t, target) ==>
                && (r.Success? <==> Lands(target, old(options), CodesIn(old(options))))
                && (r.Success? ==>
                      && options == (if target.optionCode.value in CodesIn(old(options)) then old(options)
                                     else old(options)[old(nextId) := Created(target)])
                      && r.value.option.Some? && r.value == OptionTarget(r.value.option.value)
                      && ComesTo(t, target, options, NOTHING.(option := r.value.option)))
                && (r.Failure? ==> options == old(options) && r.error != OptionInUse)
    {
      if !NamesByCode(t, target) {
        return Success(target);
      }
      if !target.optionCode.Str? {
        return Failure(Validation);
      }
      var stored := ByCode(options, target.optionCode.value);
      CodePresent(options, target.optionCode.value);
      if stored.Some? {
        return Success(OptionTarget(stored.value));
      }
      if target.optionLabel == NotText {
        return Failure(Validation);
      }
      var code := ParseCode(target.optionCode.value);
      var caption := ParseLabel(LabelOf(target));
      if code.None? || caption.None? {
        return Failure(Validation);
      }
      var id := nextId;
      nextId := nextId + 1;
      CodeIsFreeIfAbsent(options, id, code.value);
      var inserted := WriteOption(id, OptionRow(code.value, caption.value, 0));
      if inserted.Failure? {
        return Failure(inserted.error);
      }
      r := Success(OptionTarget(id));
    }

    /** One stored value: removed, or rewritten in place. */
    method MigrateValue(v: Id, t: DataType, target: Option<Target>) returns (r: Result<(), ParameterError>)
      requires Sound() && v in values
      modifies this`options, this`nextId, this`values
      ensures Sound() && Extends(old(options), options) && nextId >= old(nextId)
      ensures t != EnumType ==> options == old(options)
      ensures t != EnumType ==> (r.Success? <==> (target.Some? ==> ReadableAs(old(values)[v], t, target.value)))
      ensures t == EnumType ==>
                && (r.Success? <==> (target.Some? ==> Lands(target.value, old(options), CodesIn(old(options)))))
                && (r.Success? ==> CodesIn(options) == CodesIn(old(options)) + CodeLeft(target))
                && OnlyDrawn(old(options), options, old(nextId))
                && NewFor(old(options), options, target)
      ensures r.Success? && target.None? ==> values == old(values) - {v}
      ensures r.Success? && target.Some? ==>
                && v in values && values == old(values)[v := values[v]]
                && Migrated(old(values)[v], values[v], t, target.value, options)
      ensures r.Failure? ==> r.error != OptionInUse
    {
      if target.None? {
        values := values - {v};
        return Success(());
      }
      var resolved := ResolveMigrationTarget(t, target.value);
      if resolved.Failure? {
        return Failure(resolved.error);
      }
      CodesLeftBehind(old(options), options, old(nextId), t, target.value);
      var columns := ResolveParameterValue(t, resolved.value, options);
      if columns.None? {
        return Failure(Validation);
      }
      var row := Rewritten(values[v], t, columns.value);
      if !Allowed(row) {
        return Failure(Validation);
      }
      values := values[v := row];
      r := Success(());
    }

    /** All stored values, in the order of the query. Towards an enum this succeeds exactly if,
      in that order, every target lands. */
    method MigrateParameterValues(t: DataType, migrations: seq<Migration>, order: seq<Id>)
      returns (r: Result<(), ParameterError>)
      requires Sound() && OneForEach(values.Keys, migrations) && Lists(order, values.Keys)
      requires NamesDrawnIds(migrations, nextId)
      modifies this`options, this`nextId, this`values
      ensures Sound() && Extends(old(options), options)
      ensures t != EnumType ==> options == old(options)
      ensures t != EnumType ==> (r.Success? <==> Readable(old(values), t, TargetsOf(migrations)))
      ensures t == EnumType ==>
                && (r.Success? <==> AllLand(old(options), InOrder(order, TargetsOf(migrations))))
                && (r.Success? ==> NewFrom(old(options), options, InOrder(order, TargetsOf(migrations)), |order|))
      ensures r.Success? ==> AllMigrated(old(values), values, t, TargetsOf(migrations), options)
      ensures r.Failure? ==> r.error != OptionInUse
    {
      var targets := TargetsOf(migrations);
      EveryValueHasATarget(values.Keys, migrations);
      DrawnIds(migrations, nextId);
      ghost var task, rest := Task(t, values, options, nextId, targets, order), {};
      AllFit(task);
      r, rest := MigrateInOrder(t, targets, order, task);
      if r.Success? {
        AllDone(task, values, options, rest);
      }
    }

    method MigrateInOrder(t: DataType, targets: map<Id, Option<Target>>, order: seq<Id>, ghost task: Task)
      returns (r: Result<(), ParameterError>, ghost rest: set<Id>)
      requires Sound() && task == Task(t, values, options, nextId, targets, order) && task.Valid()
      modifies this`options, this`nextId, this`values
      ensures Sound() && Extends(task.start, options)
      ensures t != EnumType ==> options == task.start
      ensures r.Success? ==> task.Done(values, options, rest, |order|)
      ensures r.Failure? ==> !task.AllFit()
      ensures r.Failure? ==> r.error != OptionInUse
    {
      rest := values.Keys;
      var k := 0;
      NothingDone(task);
      while k < |order|
        invariant 0 <= k <= |order|
        invariant Sound() && nextId >= task.nextId
        invariant task.Done(values, options, rest, k)
      {
        r := MigrateNext(order[k], t, targets[order[k]], task, rest, k);
        if r.Failure? {
          return;
        }
        rest, k := rest - {order[k]}, k + 1;
      }
      r := Success(());
    }

    /** `MigrateValue`, as a step of a task. */
    method MigrateNext(v: Id, t: DataType, target: Option<Target>, ghost task: Task, ghost rest: set<Id>, ghost k: nat)
      returns (r: Result<(), ParameterError>)
      requires Sound() && nextId >= task.nextId && task.Valid() && k < |task.order|
      requires task.Done(values, options, rest, k)
      requires v == task.order[k] && t == task.t && target == task.targets[v]
      modifies this`options, this`nextId, this`values
      ensures Sound() && nextId >= task.nextId && Extends(task.start, options)
      ensures t != EnumType ==> options == task.start
      ensures r.Success? <==> task.Fits(k)
      ensures r.Success? ==> task.Done(values, options, rest - {v}, k + 1)
      ensures r.Failure? ==> r.error != OptionInUse
    {
      NextIsAsBefore(task, values, options, rest, k);
      ghost var sofar, known, drawn := values, options, nextId;
      r := MigrateValue(v, t, target);
      ExtendsTrans(task.start, known, options);
      if r.Success? {
        OneMoreDone(task, sofar, values, known, options, drawn, rest, k);
      }
    }

    // -------------------------------------------------------------------------
    // the whole update
    // -------------------------------------------------------------------------

    /** The statements of a type change, in the order each direction needs. A failure is
      the caller's to roll back; it never is an option deleted under a value. */
    method ChangeType(t: DataType, update: Option<seq<Entry>>, migrations: seq<Migration>, order: seq<Id>)
      returns (r: Result<(), ParameterError>)
      requires Valid() && t != dataType && OneForEach(values.Keys, migrations) && Lists(order, values.Keys)
      requires NamesDrawnIds(migrations, nextId)
      requires if t == EnumType then OptionsFitTypeChange(update, DeclareOptions(migrations), options)
               else UpdatedOptionsFit(t, update, options)
      modifies this
      ensures r.Success? ==> Valid() && dataType == t
      ensures r.Success? ==> AllMigrated(old(values), values, t, TargetsOf(migrations), options)
      ensures r.Failure? ==> r.error != OptionInUse
      ensures t != EnumType ==> (r.Success? <==> Readable(old(values), t, TargetsOf(migrations)))
      ensures t == EnumType ==>
                (r.Success? <==>
                   && (update.Some? ==> Known(map[], update.value))
                   && AllLand(Brought(update, old(nextId)), InOrder(order, TargetsOf(migrations))))
      ensures t == EnumType && r.Success? ==>
                && Extends(Brought(update, old(nextId)), options)
                && NewFrom(Brought(update, old(nextId)), options, InOrder(order, TargetsOf(migrations)), |order|)
    {
      dataType := t;
      if t == EnumType {
        NoOptionsNoPointers(values, options);
        if update.Some? {
          NothingToKeep(values, update, nextId);
        }
        r := ApplyOptionUpdates(t, update);
        if r.Failure? {
          return;
        }
        ghost var created := options;
        r := MigrateParameterValues(t, migrations, order);
        if r.Success? {
          EnumHasOptions(old(values), values, migrations, old(options), old(nextId), update, created, options);
        }
      } else {
        r := MigrateParameterValues(t, migrations, order);
        if r.Failure? {
          return;
        }
        OffTheEnumNoPointers(old(values), values, t, TargetsOf(migrations), options);
        r := ApplyOptionUpdates(t, update);
        StillMigrated(old(values), values, t, TargetsOf(migrations), old(options), options);
      }
    }

    /** One transaction: a failure leaves everything as it was. */
    method UpdateParameter(newType: Option<DataType>, update: Option<seq<Entry>>, migrations: Option<seq<Migration>>,
                           order: seq<Id>)
      returns (r: Result<(), ParameterError>)
      requires Valid() && Lists(order, values.Keys) && NamesDrawnIds(Given(migrations), nextId)
      modifies this
      ensures Valid()
      ensures r.Failure? ==> dataType == old(dataType) && options == old(options) && values == old(values)
      ensures r.Success? ==> dataType == if newType.Some? then newType.value else old(dataType)
      ensures newType.Some? && newType.value != old(dataType) ==>
                && (r.Success? ==>
                      AllMigrated(old(values), values, newType.value, TargetsOf(Given(migrations)), options))
                && (r.Failure? ==> r.error != OptionInUse)
      ensures newType.Some? && newType.value != old(dataType) && newType.value != EnumType ==>
                (r.Success? <==>
                   && (update.Some? ==> update.value == [])
                   && OneForEach(old(values).Keys, Given(migrations))
                   && Readable(old(values), newType.value, TargetsOf(Given(migrations))))
      ensures newType == Some(EnumType) && old(dataType) != EnumType ==>
                (r.Success? <==>
                   && OptionsFitTypeChange(update, DeclareOptions(Given(migrations)), map[])
                   && (update.Some? ==> Known(map[], update.value))
                   && OneForEach(old(values).Keys, Given(migrations))
                   && AllLand(Brought(update, old(nextId)), InOrder(order, TargetsOf(Given(migrations)))))
      ensures newType == Some(EnumType) && old(dataType) != EnumType && r.Success? ==>
                && Extends(Brought(update, old(nextId)), options)
                && NewFrom(Brought(update, old(nextId)), options, InOrder(order, TargetsOf(Given(migrations))), |order|)
      ensures newType.None? || newType.value == old(dataType) ==>
                && values == old(values)
                && (r.Success? <==>
                      && migrations.None?
                      && UpdatedOptionsFit(old(dataType), update, old(options))
                      && (old(dataType) == EnumType && update.Some? ==>
                            Replaces(old(options), update.value, old(nextId), values)))
                && (r.Success? ==>
                      options == if old(dataType) == EnumType && update.Some?
                                 then Written(old(options), update.value, old(nextId), |update.value|)
                                 else old(options))
    {
      var t := if newType.Some? then newType.value else dataType;
      var changed := t != dataType;
      var fits := if changed && t == EnumType
                  then OptionsFitTypeChange(update, DeclareOptions(Given(migrations)), options)
                  else UpdatedOptionsFit(t, update, options);
      if !fits {
        return Failure(Validation);
      }
      var typeBefore, optionsBefore, valuesBefore, nextBefore := dataType, options, values, nextId;
      if changed {
        var accepted := ValidateValueMigrations(values.Keys, migrations);
        if !accepted {
          return Failure(Validation);
        }
        r := ChangeType(t, update, Given(migrations), order);
      } else {
        if migrations.Some? {
          return Failure(Validation);
        }
        NoOptionsNoPointers(values, options);
        r := ApplyOptionUpdates(t, update);
        if t == EnumType && update.Some? {
          SomethingIsWritten(options, optionsBefore, update.value, nextBefore, r.Success?);
        }
      }
      if r.Failure? {
        dataType, options, values, nextId := typeBefore, optionsBefore, valuesBefore, nextBefore;
      }
    }
  }
}
