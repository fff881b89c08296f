/** What migrating all stored values of a parameter amounts to, value by value. */
module MigrationTasks {
  import opened Wrappers
  import opened OptionLists
  import opened ParameterValues
  import opened EnumMigrations

  predicate PointsAt(v: Value, options: Options) {
    v.columns.option.Some? ==> v.columns.option.value in options
  }

  /** No stored value points at a missing option. */
  predicate Referential(values: map<Id, Value>, options: Options) {
    forall v :: v in values ==> PointsAt(values[v], options)
  }

  predicate Below(options: Options, nextId: Id) {
    forall o :: o in options ==> o < nextId
  }

  /** The migrated table: one row for every target, rewritten to it. */
  ghost predicate AllMigrated(before: map<Id, Value>, after: map<Id, Value>, t: DataType,
                              targets: map<Id, Option<Target>>, options: Options)
  {
    && (forall v :: v in after <==> v in before && v in targets && targets[v].Some?)
    && (forall v :: v in after ==> Migrated(before[v], after[v], t, targets[v].value, options))
  }

  /** What it takes to migrate to a type that is not an enum. */
  predicate Readable(before: map<Id, Value>, t: DataType, targets: map<Id, Option<Target>>) {
    forall v :: v in before && v in targets && targets[v].Some? ==> ReadableAs(before[v], t, targets[v].value)
  }

  predicate ReadableAs(before: Value, t: DataType, target: Target) {
    t in target.readings && Allowed(Rewritten(before, t, target.readings[t]))
  }

  /** The stored values in the order in which the query lists them. */
  predicate Lists(order: seq<Id>, values: set<Id>) {
    && (forall i, j :: 0 <= i < j < |order| ==> order[i] != order[j])
    && (forall i :: 0 <= i < |order| ==> order[i] in values)
    && (forall v {:trigger Occurs(order, v)} :: v in values ==> Occurs(order, v))
  }

  predicate Occurs(order: seq<Id>, v: Id) {
    v in order
  }

  function InOrder(order: seq<Id>, targets: map<Id, Option<Target>>): (s: seq<Option<Target>>)
    ensures |s| == |order|
  {
    seq(|order|, i requires 0 <= i < |order| => if order[i] in targets then targets[order[i]] else None)
  }

  /** A request can name ids of options only if they have been drawn. */
  predicate NamesDrawnIds(migrations: seq<Migration>, nextId: Id) {
    forall i :: 0 <= i < |migrations| ==> NamesDrawnId(migrations[i].target, nextId)
  }

  predicate NamesDrawnId(target: Option<Target>, nextId: Id) {
    target.Some? && target.value.option.Some? ==> target.value.option.value < nextId
  }

  /** All options of `more` that are not among `options` have ids from `nextId` on. */
  predicate OnlyDrawn(options: Options, more: Options, nextId: Id) {
    forall o :: o in more ==> o in options || o >= nextId
  }

  /** What it takes to replace the options: known ids, no value on a dropped option, no entry blocked. */
  predicate Replaces(existing: Options, list: seq<Entry>, base: Id, values: map<Id, Value>)
    requires CodesUnique(existing)
  {
    && Known(existing, list)
    && Referential(values, Retained(existing, list))
    && (forall k :: 0 <= k < |list| ==> !Blocked(existing, list, base, k))
  }

  // ---------------------------------------------------------------------------
  // what the migration of one value leaves for the others
  // ---------------------------------------------------------------------------

  /** The options after one target has been resolved. */
  lemma CodesLeftBehind(options: Options, after: Options, nextId: Id, t: DataType, target: Target)
    requires CodesUnique(options) && Below(options, nextId)
    requires if NamesByCode(t, target)
             then Lands(target, options, CodesIn(options))
                  && after == (if target.optionCode.value in CodesIn(options) then options
                               else options[nextId := Created(target)])
             else after == options
    ensures Extends(options, after) && OnlyDrawn(options, after, nextId)
    ensures t == EnumType ==> CodesIn(after) == CodesIn(options) + CodeLeft(Some(target))
    ensures NewFor(options, after, Some(target))
  {
    if NamesByCode(t, target) {
      var code := target.optionCode.value;
      if code in CodesIn(options) {
        var o :| o in options && options[o].code == code;
        CodesAreTrimmed(options[o].code);
      } else {
        CodesAfterInsert(options, nextId, Created(target));
        CreatedIsMadeFor(target);
        CodesAreTrimmed(Created(target).code);
      }
    }
  }

  lemma DrawnIds(migrations: seq<Migration>, nextId: Id)
    requires NamesDrawnIds(migrations, nextId)
    ensures forall v :: v in TargetsOf(migrations) ==> NamesDrawnId(TargetsOf(migrations)[v], nextId)
  {
    if migrations != [] {
      DrawnIds(migrations[..|migrations| - 1], nextId);
      assert NamesDrawnId(migrations[|migrations| - 1].target, nextId);
    }
  }

  /** The first `k` targets have left their codes, each new option being for the first that names it. */
  ghost predicate LandedSoFar(start: Options, options: Options, nextId: Id, asked: seq<Option<Target>>, k: nat)
    requires k <= |asked|
  {
    && Extends(start, options) && OnlyDrawn(start, options, nextId)
    && CodesIn(options) == CodesIn(start) + CodesLeft(asked, k)
    && NewFrom(start, options, asked, k)
  }

  /** Whether a target lands can be told from the options at the start and the targets before it. */
  lemma LandsLikewise(start: Options, options: Options, nextId: Id, asked: seq<Option<Target>>, k: nat)
    requires k < |asked| && NamesDrawnId(asked[k], nextId) && LandedSoFar(start, options, nextId, asked, k)
    ensures asked[k].Some? ==> (LandsAt(start, asked, k) <==> Lands(asked[k].value, options, CodesIn(options)))
  {
    if asked[k].Some? && asked[k].value.option.Some? {
      var o: Id := asked[k].value.option.value;
      assert o in start ==> o in options;
    }
  }

  lemma OneMoreLanded(start: Options, known: Options, options: Options, nextId: Id, drawn: Id,
                      asked: seq<Option<Target>>, k: nat)
    requires k < |asked| && LandedSoFar(start, known, nextId, asked, k)
    requires Extends(known, options) && OnlyDrawn(known, options, drawn) && drawn >= nextId
    requires CodesIn(options) == CodesIn(known) + CodeLeft(asked[k])
    requires NewFor(known, options, asked[k])
    ensures LandedSoFar(start, options, nextId, asked, k + 1)
  {
    ExtendsTrans(start, known, options);
    forall o | o in options && o !in start ensures HasOrigin(options[o], asked, k + 1) {
      if o in known {
        assert HasOrigin(known[o], asked, k);
        var j :| 0 <= j < k && FirstFor(known[o], asked, j);
        assert FirstFor(options[o], asked, j);
      } else {
        forall i | 0 <= i < k ensures !NamesCode(asked[i], options[o].code) {
          if NamesCode(asked[i], options[o].code) {
            EarlierCodesAreLeft(asked, k, i, options[o].code);
          }
        }
        assert FirstFor(options[o], asked, k);
      }
    }
  }

  /** What is new was made for this target, under a code there was not. */
  ghost predicate NewFor(known: Options, options: Options, target: Option<Target>) {
    forall o :: o in options && o !in known ==> MadeFor(options[o], target) && options[o].code !in CodesIn(known)
  }

  lemma ExtendsTrans(a: Options, b: Options, c: Options)
    requires Extends(a, b) && Extends(b, c)
    ensures Extends(a, c)
  {
  }

  function Outside(values: map<Id, Value>, ids: set<Id>): map<Id, Value> {
    map v | v in values && v !in ids :: values[v]
  }

  /** `rest` holds the values from place `k` on. */
  predicate IsRest(rest: set<Id>, order: seq<Id>, k: nat)
    requires k <= |order|
  {
    (forall i :: 0 <= i < k ==> order[i] !in rest) && (forall i :: k <= i < |order| ==> order[i] in rest)
  }

  lemma OneLess(rest: set<Id>, order: seq<Id>, k: nat)
    requires k < |order| && IsRest(rest, order, k) && forall i, j :: 0 <= i < j < |order| ==> order[i] != order[j]
    ensures IsRest(rest - {order[k]}, order, k + 1)
  {
  }

  lemma NothingLeft(rest: set<Id>, order: seq<Id>, values: set<Id>)
    requires Lists(order, values) && IsRest(rest, order, |order|) && rest <= values
    ensures rest == {}
  {
    forall v ensures v in rest <==> v in {} {
      assert v in rest ==> Occurs(order, v);
    }
  }

  lemma EveryValueHasATarget(values: set<Id>, migrations: seq<Migration>)
    requires OneForEach(values, migrations)
    ensures values == TargetsOf(migrations).Keys
  {
    TargetsOfMigrations(migrations);
    forall v ensures v in values <==> v in TargetsOf(migrations) {
    }
  }

  /** The values in `rest` are as before, the others migrated. */
  ghost predicate MigratedSoFar(before: map<Id, Value>, values: map<Id, Value>, rest: set<Id>, t: DataType,
                                targets: map<Id, Option<Target>>, options: Options)
  {
    && rest <= before.Keys <= targets.Keys
    && (forall v :: v in rest ==> v in values && values[v] == before[v])
    && AllMigrated(Outside(before, rest), Outside(values, rest), t, targets, options)
  }

  lemma OneMoreMigrated(before: map<Id, Value>, sofar: map<Id, Value>, after: map<Id, Value>, rest: set<Id>, v: Id,
                        t: DataType, targets: map<Id, Option<Target>>, known: Options, options: Options)
    requires MigratedSoFar(before, sofar, rest, t, targets, known) && v in rest && Extends(known, options)
    requires targets[v].None? ==> after == sofar - {v}
    requires targets[v].Some? ==>
               && v in after && after == sofar[v := after[v]]
               && Migrated(before[v], after[v], t, targets[v].value, options)
    ensures MigratedSoFar(before, after, rest - {v}, t, targets, options)
  {
    forall x | x in Outside(after, rest - {v})
      ensures x in before && x in targets && targets[x].Some?
              && Migrated(before[x], after[x], t, targets[x].value, options)
    {
      if x != v {
        assert x in Outside(sofar, rest);
        MigratedStays(before[x], after[x], t, targets[x].value, known, options);
      }
    }
    forall x ensures x in Outside(after, rest - {v}) <==>
                     x in Outside(before, rest - {v}) && x in targets && targets[x].Some?
    {
      assert x != v ==> (x in Outside(sofar, rest) <==> x in Outside(after, rest - {v}));
      assert x != v ==> (x in Outside(before, rest) <==> x in Outside(before, rest - {v}));
    }
  }

  /** A migration under way: where it started and what it was asked to do. */
  datatype Task = Task(
    t: DataType,
    before: map<Id, Value>,
    start: Options,
    nextId: Id,
    targets: map<Id, Option<Target>>,
    order: seq<Id>)
  {
    function Asked(): seq<Option<Target>> {
      InOrder(order, targets)
    }

    ghost predicate Valid() {
      && Lists(order, before.Keys) && before.Keys == targets.Keys
      && forall v :: v in targets ==> NamesDrawnId(targets[v], nextId)
    }

    /** Whether the value at place `k` can be migrated. */
    ghost predicate Fits(k: nat)
      requires Valid() && k < |order|
    {
      if t == EnumType then LandsAt(start, Asked(), k)
      else targets[order[k]].Some? ==> ReadableAs(before[order[k]], t, targets[order[k]].value)
    }

    ghost predicate AllFit()
      requires Valid()
    {
      forall k :: 0 <= k < |order| ==> Fits(k)
    }

    /** The values at the first `k` places are migrated, and the others, `rest`, are as before. */
    ghost predicate Done(values: map<Id, Value>, options: Options, rest: set<Id>, k: nat)
      requires Valid() && k <= |order|
    {
      && IsRest(rest, order, k)
      && MigratedSoFar(before, values, rest, t, targets, options)
      && (forall i :: 0 <= i < k ==> Fits(i))
      && if t == EnumType then LandedSoFar(start, options, nextId, Asked(), k) else options == start
    }
  }

  lemma NothingDone(task: Task)
    requires task.Valid()
    ensures task.Done(task.before, task.start, task.before.Keys, 0)
  {
    assert Outside(task.before, task.before.Keys) == map[];
  }

  lemma NextIsAsBefore(task: Task, values: map<Id, Value>, options: Options, rest: set<Id>, k: nat)
    requires task.Valid() && k < |task.order| && task.Done(values, options, rest, k)
    ensures var v := task.order[k];
            && v in rest && v in task.targets && v in task.before && v in values && values[v] == task.before[v]
            && Extends(task.start, options)
            && (task.t == EnumType ==>
                  (task.Fits(k) <==>
                     (task.targets[v].Some? ==> Lands(task.targets[v].value, options, CodesIn(options)))))
  {
    if task.t == EnumType {
      LandsLikewise(task.start, options, task.nextId, task.Asked(), k);
    }
  }

  lemma OneMoreDone(task: Task, sofar: map<Id, Value>, values: map<Id, Value>, known: Options, options: Options,
                    drawn: Id, rest: set<Id>, k: nat)
    requires task.Valid() && k < |task.order| && task.Done(sofar, known, rest, k) && task.Fits(k)
    requires drawn >= task.nextId && Extends(known, options)
    requires if task.t == EnumType
             then OnlyDrawn(known, options, drawn) && CodesIn(options) == CodesIn(known) + CodeLeft(task.Asked()[k])
                  && NewFor(known, options, task.Asked()[k])
             else options == known
    requires var v, target := task.order[k], task.targets[task.order[k]];
             && (target.None? ==> values == sofar - {v})
             && (target.Some? ==>
                   && v in values && values == sofar[v := values[v]]
                   && Migrated(task.before[v], values[v], task.t, target.value, options))
    ensures task.Done(values, options, rest - {task.order[k]}, k + 1)
  {
    OneMoreMigrated(task.before, sofar, values, rest, task.order[k], task.t, task.targets, known, options);
    OneLess(rest, task.order, k);
    if task.t == EnumType {
      OneMoreLanded(task.start, known, options, task.nextId, drawn, task.Asked(), k);
    }
  }

  lemma AllDone(task: Task, values: map<Id, Value>, options: Options, rest: set<Id>)
    requires task.Valid() && task.Done(values, options, rest, |task.order|)
    ensures AllMigrated(task.before, values, task.t, task.targets, options)
    ensures Extends(task.start, options) && task.AllFit()
    ensures task.t == EnumType ==> NewFrom(task.start, options, task.Asked(), |task.order|)
  {
    NothingLeft(rest, task.order, task.before.Keys);
    assert Outside(task.before, {}) == task.before && Outside(values, {}) == values;
  }

  /** Every place fits exactly if, off the enum, every target can be read and, onto it, every target lands. */
  lemma AllFit(task: Task)
    requires task.Valid()
    ensures task.AllFit() <==>
            if task.t == EnumType then AllLand(task.start, task.Asked())
            else Readable(task.before, task.t, task.targets)
  {
    if task.t != EnumType && forall k :: 0 <= k < |task.order| ==> task.Fits(k) {
      forall v | v in task.before && v in task.targets && task.targets[v].Some?
        ensures ReadableAs(task.before[v], task.t, task.targets[v].value)
      {
        assert Occurs(task.order, v);
        var k :| 0 <= k < |task.order| && task.order[k] == v;
        assert task.Fits(k);
      }
    }
    if task.t == EnumType && AllLand(task.start, task.Asked()) {
      forall k | 0 <= k < |task.order| ensures task.Fits(k) {
        assert LandsAt(task.start, task.Asked(), k);
      }
    }
    if task.t == EnumType && forall k :: 0 <= k < |task.order| ==> task.Fits(k) {
      forall k | 0 <= k < |task.Asked()| ensures LandsAt(task.start, task.Asked(), k) {
        assert task.Fits(k);
      }
    }
  }

  lemma KeptReferences(values: map<Id, Value>, existing: Options, list: seq<Entry>)
    requires CodesUnique(existing) && Referential(values, existing)
    ensures Referential(values, Retained(existing, list)) <==>
            forall v :: v in values && values[v].columns.option.Some? ==>
                          values[v].columns.option.value in RetainedIds(existing, list)
  {
    forall v | v in values
      ensures PointsAt(values[v], Retained(existing, list)) <==>
              (values[v].columns.option.Some? ==> values[v].columns.option.value in RetainedIds(existing, list))
    {
      assert PointsAt(values[v], existing);
    }
  }

  /** The options that come with the update itself, for a parameter that has none. */
  function Brought(update: Option<seq<Entry>>, base: Id): Options {
    if update.Some? then Written(map[], update.value, base, |update.value|) else map[]
  }

  /** On the way to an enum an option has no id to name yet, so every target that is not
    a removal must name its option by code. */
  lemma NewEnumTakesCodesOnly(update: Option<seq<Entry>>, base: Id, targets: seq<Option<Target>>, k: nat)
    requires update.Some? ==> WellFormed(update.value) && Known(map[], update.value)
    requires AllLand(Brought(update, base), targets)
    requires k < |targets| && targets[k].Some? && NamesDrawnId(targets[k], base)
    ensures BringsCode(targets[k])
  {
    assert LandsAt(Brought(update, base), targets, k);
    if !BringsCode(targets[k]) && update.Some? {
      var o: Id := targets[k].value.option.value;
      assert o in Brought(update, base);
      var m := NothingElse(map[], update.value, base, o);
    }
  }

  /** Where there are no options yet, the list meets no obstacle but ids that nobody has. */
  lemma NothingToKeep(values: map<Id, Value>, update: Option<seq<Entry>>, base: Id)
    requires Referential(values, map[]) && update.Some?
    ensures Retained(map[], update.value) == map[]
    ensures Referential(values, Retained(map[], update.value))
    ensures forall k :: 0 <= k < |update.value| ==> !Blocked(map[], update.value, base, k)
  {
  }

  lemma NoOptionsNoPointers(values: map<Id, Value>, options: Options)
    requires Referential(values, options)
    ensures options == map[] ==> Referential(values, map[])
  {
  }

  /** Rows that have left the enum point at nothing, so its options may go. */
  lemma OffTheEnumNoPointers(before: map<Id, Value>, after: map<Id, Value>, t: DataType,
                             targets: map<Id, Option<Target>>, options: Options)
    requires t != EnumType && AllMigrated(before, after, t, targets, options)
    ensures Referential(after, map[])
  {
    forall v | v in after ensures PointsAt(after[v], map[]) {
      assert Migrated(before[v], after[v], t, targets[v].value, options);
    }
  }

  /** Off the enum, what a value becomes does not depend on the options. */
  lemma StillMigrated(before: map<Id, Value>, after: map<Id, Value>, t: DataType,
                      targets: map<Id, Option<Target>>, options: Options, left: Options)
    requires t != EnumType && AllMigrated(before, after, t, targets, options)
    ensures AllMigrated(before, after, t, targets, left)
  {
    forall v | v in after ensures Migrated(before[v], after[v], t, targets[v].value, left) {
      assert Migrated(before[v], after[v], t, targets[v].value, options);
    }
  }

  lemma SomethingIsWritten(options: Options, existing: Options, list: seq<Entry>, base: Id, success: bool)
    requires CodesUnique(existing) && list != []
    requires success ==> options == Written(existing, list, base, |list|)
    ensures success ==> options != map[]
  {
    if success {
      assert IdFor(existing, list, base, |list| - 1) in options;
    }
  }

  /** A new enum has an option: one of the list, or the one a migration brought along. */
  lemma EnumHasOptions(before: map<Id, Value>, after: map<Id, Value>, migrations: seq<Migration>, existing: Options,
                       base: Id, update: Option<seq<Entry>>, created: Options, options: Options)
    requires CodesUnique(existing) && OneForEach(before.Keys, migrations)
    requires OptionsFitTypeChange(update, DeclareOptions(migrations), existing)
    requires update.Some? ==> created == Written(existing, update.value, base, |update.value|)
    requires Extends(created, options) && AllMigrated(before, after, EnumType, TargetsOf(migrations), options)
    ensures options != map[]
  {
    if update.Some? && update.value != [] {
      var last := IdFor(existing, update.value, base, |update.value| - 1);
      assert last in created;
      assert last in options;
    } else {
      var i :| 0 <= i < |migrations| && migrations[i].target.Some? && migrations[i].target.value.optionCode.Str?;
      TargetsOfMigrations(migrations);
      var v := migrations[i].value;
      assert v in after && Migrated(before[v], after[v], EnumType, migrations[i].target.value, options);
    }
  }

  // ---------------------------------------------------------------------------
  // what an update may ask for
  // ---------------------------------------------------------------------------

  /** A list replaces the options exactly if its ids are there, every option that a value points at has an entry
    standing for it, and no entry with an id takes the code of an option that a later one claims by id. */
  lemma ReplacesMeans(existing: Options, list: seq<Entry>, base: Id, values: map<Id, Value>)
    requires CodesUnique(existing) && WellFormed(list) && Below(existing, base) && Referential(values, existing)
    ensures Replaces(existing, list, base, values) <==>
            && (forall k :: 0 <= k < |list| && list[k].id.Some? ==> list[k].id.value in existing)
            && (forall v :: v in values && values[v].columns.option.Some? ==>
                              ClaimedBySome(existing, list, values[v].columns.option.value))
            && (forall j, k :: 0 <= k < j < |list| && list[k].id.Some? ==> !Successor(existing, list[k], list[j]))
  {
    forall v | v in values
      ensures PointsAt(values[v], Retained(existing, list)) <==>
              (values[v].columns.option.Some? ==> ClaimedBySome(existing, list, values[v].columns.option.value))
    {
      assert PointsAt(values[v], existing);
      if values[v].columns.option.Some? {
        RetainedMeans(existing, list, values[v].columns.option.value);
      }
    }
    if Known(existing, list) {
      forall k | 0 <= k < |list|
        ensures Blocked(existing, list, base, k) <==>
                list[k].id.Some? && exists j :: k < j < |list| && Successor(existing, list[k], list[j])
      {
        BlockedMeans(existing, list, base, k);
      }
    }
  }

  predicate ClaimedBySome(existing: Options, list: seq<Entry>, o: Id) {
    o in existing && exists k :: 0 <= k < |list| && Claims(existing, list[k], o)
  }

  /** What it takes to read a target as a value of a type that is no enum. What the row holds for other types,
    once allowed, never stands in the way. */
  lemma ReadableMeans(before: Value, t: DataType, target: Target)
    requires Allowed(before) && t != EnumType
    ensures ReadableAs(before, t, target) <==>
            && t in target.readings
            && var c := target.readings[t];
            && (t == TextType ==> c.text.Some?)
            && (t == NumberType ==> c.number.Some?)
            && (t == BooleanType ==> c.boolean.Some?)
            && (t == DateType ==> c.date.Some?)
            && (t == RangeType ==>
                  && c.rangeStart.Some? && c.rangeEnd.Some? && c.rangeStart.value <= c.rangeEnd.value
                  && (c.rangeStartInBase.Some? && c.rangeEndInBase.Some? ==>
                        c.rangeStartInBase.value <= c.rangeEndInBase.value))
  {
  }

  /** A new enum gets its options from a list without repetitions and without ids or, without a list, from
    migrations of which at least one brings the code of an option. */
  lemma NewEnumMeans(update: Option<seq<Entry>>, migrations: seq<Migration>)
    ensures OptionsFitTypeChange(update, DeclareOptions(migrations), map[])
            && (update.Some? ==> Known(map[], update.value)) <==>
            if update.Some? && update.value != []
            then (forall k :: 0 <= k < |update.value| ==> update.value[k].id.None?) && CodesDistinct(update.value)
            else exists i :: 0 <= i < |migrations| && migrations[i].target.Some?
                             && migrations[i].target.value.optionCode.Str?
  {
    if update.Some? {
      assert CodesDistinct(update.value) <==>
        forall i, j :: 0 <= i < j < |update.value| ==> !SameCode(update.value[i], update.value[j]);
    }
  }

  predicate CodesDistinct(list: seq<Entry>) {
    forall i, j :: 0 <= i < j < |list| ==> list[i].row.code != list[j].row.code
  }

  /** Without a change of type, only an enum takes options, and is not left without any. */
  lemma SameTypeMeans(t: DataType, update: Option<seq<Entry>>, existing: Options)
    requires t == EnumType ==> existing != map[]
    ensures UpdatedOptionsFit(t, update, existing) <==>
            && (t != EnumType && update.Some? ==> update.value == [])
            && (t == EnumType && update.Some? ==>
                  && update.value != [] && CodesDistinct(update.value)
                  && (forall i, j :: 0 <= i < j < |update.value| && update.value[i].id.Some? ==>
                                       update.value[i].id != update.value[j].id))
  {
    if update.Some? {
      assert CodesDistinct(update.value) <==>
        forall i, j :: 0 <= i < j < |update.value| ==> !SameCode(update.value[i], update.value[j]);
    }
  }
}
