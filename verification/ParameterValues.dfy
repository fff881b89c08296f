/** Stored parameter values, and what a change of data type does to one of them.

  A row keeps the columns of every type it ever had; which of them is current is
  decided by its data type. */
module ParameterValues {
  import opened Wrappers
  import opened OptionLists
  import opened Text

  datatype DataType = TextType | NumberType | RangeType | BooleanType | DateType | EnumType

  datatype Columns = Columns(
    text: Option<string>,
    number: Option<real>,
    numberInBase: Option<real>,
    rangeStart: Option<real>,
    rangeEnd: Option<real>,
    rangeStartInBase: Option<real>,
    rangeEndInBase: Option<real>,
    unit: Option<Id>,
    boolean: Option<bool>,
    date: Option<int>,
    option: Option<Id>)

  datatype Value = Value(dataType: DataType, columns: Columns)

  const NOTHING: Columns := Columns(None, None, None, None, None, None, None, None, None, None, None)

  /** The check constraints of the table: the column of the current type is filled, and ranges are in order. */
  predicate Allowed(v: Value) {
    var c := v.columns;
    && (match v.dataType
        case TextType => c.text.Some?
        case NumberType => c.number.Some?
        case RangeType => c.rangeStart.Some? && c.rangeEnd.Some? && c.rangeStart.value <= c.rangeEnd.value
        case BooleanType => c.boolean.Some?
        case DateType => c.date.Some?
        case EnumType => c.option.Some?)
    && (c.rangeStartInBase.Some? && c.rangeEndInBase.Some? ==> c.rangeStartInBase.value <= c.rangeEndInBase.value)
  }

  /** Only the columns of the new type are replaced; the option is cleared for every other type. */
  function Rewritten(v: Value, t: DataType, resolved: Columns): Value {
    var c := v.columns;
    Value(t,
          Columns(
            if t == TextType then resolved.text else c.text,
            if t == NumberType then resolved.number else c.number,
            if t == NumberType then resolved.numberInBase else c.numberInBase,
            if t == RangeType then resolved.rangeStart else c.rangeStart,
            if t == RangeType then resolved.rangeEnd else c.rangeEnd,
            if t == RangeType then resolved.rangeStartInBase else c.rangeStartInBase,
            if t == RangeType then resolved.rangeEndInBase else c.rangeEndInBase,
            if t == NumberType || t == RangeType then resolved.unit else c.unit,
            if t == BooleanType then resolved.boolean else c.boolean,
            if t == DateType then resolved.date else c.date,
            if t == EnumType then resolved.option else None))
  }

  // ---------------------------------------------------------------------------
  // chains of type changes
  // ---------------------------------------------------------------------------

  datatype TypeChange = TypeChange(dataType: DataType, resolved: Columns)

  function AfterChanges(v: Value, changes: seq<TypeChange>): Value {
    if changes == [] then v
    else
      var before := AfterChanges(v, changes[..|changes| - 1]);
      Rewritten(before, changes[|changes| - 1].dataType, changes[|changes| - 1].resolved)
  }

  /** What the latest change to one of the given types wrote; the row's first contents if there was none. */
  function LatestAs(first: Columns, changes: seq<TypeChange>, types: set<DataType>): Columns {
    if changes == [] then first
    else if changes[|changes| - 1].dataType in types then changes[|changes| - 1].resolved
    else LatestAs(first, changes[..|changes| - 1], types)
  }

  /** However often the type changes, each column holds what was last written while the parameter
    had its type; the unit belongs to numbers and ranges alike, and no option outlives the enum. */
  lemma {:induction false} ChangesKeepEarlierReadings(v: Value, changes: seq<TypeChange>)
    ensures var c, first := AfterChanges(v, changes).columns, v.columns;
            && c.text == LatestAs(first, changes, {TextType}).text
            && c.number == LatestAs(first, changes, {NumberType}).number
            && c.numberInBase == LatestAs(first, changes, {NumberType}).numberInBase
            && c.rangeStart == LatestAs(first, changes, {RangeType}).rangeStart
            && c.rangeEnd == LatestAs(first, changes, {RangeType}).rangeEnd
            && c.rangeStartInBase == LatestAs(first, changes, {RangeType}).rangeStartInBase
            && c.rangeEndInBase == LatestAs(first, changes, {RangeType}).rangeEndInBase
            && c.unit == LatestAs(first, changes, {NumberType, RangeType}).unit
            && c.boolean == LatestAs(first, changes, {BooleanType}).boolean
            && c.date == LatestAs(first, changes, {DateType}).date
    ensures var last := AfterChanges(v, changes);
            (v.dataType != EnumType ==> v.columns.option.None?) ==>
              (last.dataType != EnumType ==> last.columns.option.None?)
  {
    if changes != [] {
      ChangesKeepEarlierReadings(v, changes[..|changes| - 1]);
    }
  }

  // ---------------------------------------------------------------------------
  // what a migration asks for
  // ---------------------------------------------------------------------------

  /** A member of a JSON object. */
  datatype Member = Absent | NotText | Str(value: string)

  /** A JSON value, by what it reads as: `readings` for the types that are not enums, units
    already converted; `option` the option id it names, if it names one. */
  datatype Target = Target(
    readings: map<DataType, Columns>,
    option: Option<Id>,
    hasOptionId: bool,
    optionCode: Member,
    optionLabel: Member)

  /** No target means that the stored value is to be removed. */
  datatype Migration = Migration(value: Id, target: Option<Target>)

  function OptionTarget(o: Id): Target {
    Target(map[], Some(o), true, Absent, Absent)
  }

  function ParseCode(s: string): Option<Code> {
    if IsCode(Trim(s)) then Some(Trim(s)) else None
  }

  function ParseLabel(s: string): Option<string> {
    if Trim(s) == "" then None else Some(Trim(s))
  }

  predicate NamesByCode(t: DataType, target: Target) {
    t == EnumType && !target.hasOptionId && target.optionCode != Absent
  }

  /** Reads a target as a value of the parameter's type; an option has to exist. */
  function ResolveParameterValue(t: DataType, target: Target, options: Options): Option<Columns> {
    if t == EnumType then
      if target.option.Some? && target.option.value in options then Some(NOTHING.(option := target.option)) else None
    else if t in target.readings then Some(target.readings[t])
    else None
  }

  /** What a target comes to, given the options there are in the end. */
  predicate ComesTo(t: DataType, target: Target, options: Options, columns: Columns) {
    if t == EnumType then
      && columns.option.Some? && columns.option.value in options && columns == NOTHING.(option := columns.option)
      && var o := columns.option.value;
      if NamesByCode(t, target) then
        && target.optionCode.Str?
        && (options[o].code == target.optionCode.value || options[o].code == Trim(target.optionCode.value))
      else target.option == Some(o)
    else t in target.readings && columns == target.readings[t]
  }

  predicate Extends(options: Options, more: Options) {
    forall o :: o in options ==> o in more && more[o] == options[o]
  }

  /** A stored value, before and after its migration. */
  predicate Migrated(before: Value, after: Value, t: DataType, target: Target, options: Options) {
    var incoming := if t == EnumType then NOTHING.(option := after.columns.option) else Reading(t, target);
    Allowed(after) && ComesTo(t, target, options, incoming) && after == Rewritten(before, t, incoming)
  }

  function Reading(t: DataType, target: Target): Columns {
    if t in target.readings then target.readings[t] else NOTHING
  }

  lemma MigratedStays(before: Value, after: Value, t: DataType, target: Target, options: Options, more: Options)
    requires Migrated(before, after, t, target, options) && Extends(options, more)
    ensures Migrated(before, after, t, target, more)
  {
  }

  /** A migrated value has the new type and, in the columns of that type, what the target reads as. The option
    is one there is: named by id, or by its code, blanks aside. Off the enum none is left, and the other
    columns are as they were. */
  lemma MigratedMeans(before: Value, after: Value, t: DataType, target: Target, options: Options)
    requires Migrated(before, after, t, target, options)
    ensures after.dataType == t
    ensures t == TextType ==>
              && Reads(t, target) && after.columns.text.Some? && after.columns.text == target.readings[t].text
    ensures t == NumberType ==>
              && Reads(t, target) && after.columns.number.Some? && after.columns.number == target.readings[t].number
              && after.columns.numberInBase == target.readings[t].numberInBase
    ensures t == RangeType ==>
              && Reads(t, target) && after.columns.rangeStart.Some? && after.columns.rangeEnd.Some?
              && after.columns.rangeStart == target.readings[t].rangeStart
              && after.columns.rangeEnd == target.readings[t].rangeEnd
              && after.columns.rangeStartInBase == target.readings[t].rangeStartInBase
              && after.columns.rangeEndInBase == target.readings[t].rangeEndInBase
              && after.columns.rangeStart.value <= after.columns.rangeEnd.value
    ensures t == NumberType || t == RangeType ==> after.columns.unit == target.readings[t].unit
    ensures t == BooleanType ==>
              && Reads(t, target) && after.columns.boolean.Some?
              && after.columns.boolean == target.readings[t].boolean
    ensures t == DateType ==>
              && Reads(t, target) && after.columns.date.Some? && after.columns.date == target.readings[t].date
    ensures t == EnumType ==> after.columns.option.Some? && NamesOption(target, options, after.columns.option.value)
    ensures t != EnumType ==> after.columns.option.None?
    ensures KeepsOtherColumns(before.columns, after.columns, t)
  {
  }

  predicate Reads(t: DataType, target: Target) {
    t in target.readings
  }

  predicate NamesOption(target: Target, options: Options, o: Id) {
    && o in options
    && if target.hasOptionId || target.optionCode == Absent then target.option == Some(o)
       else target.optionCode.Str? && (|| options[o].code == target.optionCode.value
                                       || options[o].code == Trim(target.optionCode.value))
  }

  predicate KeepsOtherColumns(c: Columns, c': Columns, t: DataType) {
    && (t != TextType ==> c'.text == c.text)
    && (t != NumberType ==> c'.number == c.number && c'.numberInBase == c.numberInBase)
    && (t != RangeType ==> c'.rangeStart == c.rangeStart && c'.rangeEnd == c.rangeEnd)
    && (t != RangeType ==> c'.rangeStartInBase == c.rangeStartInBase && c'.rangeEndInBase == c.rangeEndInBase)
    && (t != NumberType && t != RangeType ==> c'.unit == c.unit)
    && (t != BooleanType ==> c'.boolean == c.boolean)
    && (t != DateType ==> c'.date == c.date)
  }

  // ---------------------------------------------------------------------------
  // validation
  // ---------------------------------------------------------------------------

  function TargetsOf(migrations: seq<Migration>): map<Id, Option<Target>> {
    if migrations == [] then map[]
    else
      var last := migrations[|migrations| - 1];
      TargetsOf(migrations[..|migrations| - 1])[last.value := last.target]
  }

  predicate Distinct(migrations: seq<Migration>) {
    forall i, j :: 0 <= i < j < |migrations| ==> migrations[i].value != migrations[j].value
  }

  /** One migration for each stored value, and none besides. */
  predicate OneForEach(values: set<Id>, migrations: seq<Migration>) {
    && Distinct(migrations)
    && (forall i :: 0 <= i < |migrations| ==> migrations[i].value in values)
    && (forall v :: v in values ==> exists i :: 0 <= i < |migrations| && migrations[i].value == v)
  }

  /** One migration for each value means: the right values, and as many migrations as values. */
  lemma OneForEachCounts(values: set<Id>, migrations: seq<Migration>)
    ensures OneForEach(values, migrations) <==> ValuesOf(migrations) == values && |migrations| == |values|
  {
    DistinctCounts(migrations);
    if OneForEach(values, migrations) {
      forall v ensures v in ValuesOf(migrations) <==> v in values {
      }
    }
  }

  ghost function ValuesOf(migrations: seq<Migration>): set<Id> {
    set i | 0 <= i < |migrations| :: migrations[i].value
  }

  lemma {:induction false} DistinctCounts(migrations: seq<Migration>)
    ensures |ValuesOf(migrations)| <= |migrations|
    ensures Distinct(migrations) <==> |ValuesOf(migrations)| == |migrations|
  {
    if migrations == [] {
      assert ValuesOf(migrations) == {};
    } else {
      var n := |migrations| - 1;
      var shorter, v := migrations[..n], migrations[n].value;
      DistinctCounts(shorter);
      assert ValuesOf(migrations) == ValuesOf(shorter) + {v} by {
        forall w | w in ValuesOf(shorter) ensures w in ValuesOf(migrations) {
          var i :| 0 <= i < n && shorter[i].value == w;
          assert migrations[i].value == w;
        }
      }
      assert v in ValuesOf(shorter) <==> exists i :: 0 <= i < n && migrations[i].value == v by {
        if i :| 0 <= i < n && migrations[i].value == v {
          assert shorter[i].value == v;
        }
      }
      assert Distinct(migrations) <==> Distinct(shorter) && v !in ValuesOf(shorter);
    }
  }

  /** A migration list that is left out stands for no migrations. */
  function Given(migrations: Option<seq<Migration>>): seq<Migration> {
    if migrations.Some? then migrations.value else []
  }

  lemma {:induction false} TargetsOfMigrations(migrations: seq<Migration>)
    ensures forall v :: v in TargetsOf(migrations) <==> exists i :: 0 <= i < |migrations| && migrations[i].value == v
    ensures Distinct(migrations) ==>
              forall i :: 0 <= i < |migrations| ==>
                            migrations[i].value in TargetsOf(migrations)
                            && TargetsOf(migrations)[migrations[i].value] == migrations[i].target
  {
    if migrations != [] {
      var shorter := migrations[..|migrations| - 1];
      TargetsOfMigrations(shorter);
      forall v ensures v in TargetsOf(migrations) <==> exists i :: 0 <= i < |migrations| && migrations[i].value == v {
        if v in TargetsOf(shorter) {
          var i :| 0 <= i < |shorter| && shorter[i].value == v;
          assert migrations[i].value == v;
        }
        if v == migrations[|migrations| - 1].value {
          assert v in TargetsOf(migrations);
        }
        if i :| 0 <= i < |migrations| && migrations[i].value == v {
          assert i < |shorter| ==> shorter[i].value == v;
        }
      }
      if Distinct(migrations) {
        forall i | 0 <= i < |migrations|
          ensures migrations[i].value in TargetsOf(migrations)
                  && TargetsOf(migrations)[migrations[i].value] == migrations[i].target
        {
          if i < |shorter| {
            assert shorter[i].value == migrations[i].value;
          }
        }
      }
    }
  }

  /** Accepts exactly a one-to-one list of migrations, counting instead of comparing. */
  method ValidateValueMigrations(values: set<Id>, migrations: Option<seq<Migration>>) returns (accepted: bool)
    ensures accepted <==> OneForEach(values, Given(migrations))
    ensures migrations.None? ==> (accepted <==> forall v :: v !in values)
    ensures migrations.Some? ==> (accepted <==> OneForEach(values, migrations.value))
  {
    if migrations.None? {
      if v :| v in values {
        return false;
      }
      return true;
    }
    var list := migrations.value;
    var migrated: set<Id> := {};
    var i := 0;
    while i < |list|
      invariant 0 <= i <= |list|
      invariant migrated <= values
      invariant forall k :: 0 <= k < i ==> list[k].value in migrated
      invariant forall v :: v in migrated ==> exists k :: 0 <= k < i && list[k].value == v
      invariant forall k, m :: 0 <= k < m < i ==> list[k].value != list[m].value
    {
      if list[i].value in migrated {
        assert !Distinct(list);
        return false;
      }
      if list[i].value !in values {
        return false;
      }
      migrated := migrated + {list[i].value};
      i := i + 1;
    }
    accepted := |migrated| == |values|;
    EqualBySize(migrated, values);
    assert Distinct(list);
    if OneForEach(values, list) {
      forall v | v in values ensures v in migrated {
        var k :| 0 <= k < |list| && list[k].value == v;
      }
    }
  }

  lemma EqualBySize(a: set<Id>, b: set<Id>)
    requires a <= b
    ensures |a| == |b| <==> a == b
  {
    assert b == a + (b - a);
  }

  /** Whether some migration brings the code of an option along. */
  predicate DeclareOptions(migrations: seq<Migration>) {
    exists i :: 0 <= i < |migrations| && migrations[i].target.Some? && migrations[i].target.value.optionCode.Str?
  }

  /** An incoming list for an enum must be non-empty, without repeated ids or codes. */
  method ValidateUpdateOptionList(list: seq<Entry>) returns (accepted: bool)
    ensures accepted <==> |list| > 0 && WellFormed(list)
    ensures accepted <==>
              && list != []
              && (forall i, j :: 0 <= i < j < |list| && list[i].id.Some? && list[j].id.Some? ==>
                                   list[i].id.value != list[j].id.value)
              && (forall i, j :: 0 <= i < j < |list| ==> list[i].row.code != list[j].row.code)
  {
    var ids: set<Id>, codes: set<string> := {}, {};
    var i := 0;
    while i < |list|
      invariant 0 <= i <= |list|
      invariant ids == IdsOf(list, i) && codes == CodesOf(list, i)
      invariant NoRepeats(list, i)
    {
      if list[i].id.Some? && list[i].id.value in ids {
        assert exists k :: 0 <= k < i && SameId(list[k], list[i]);
        return false;
      }
      if list[i].row.code in codes {
        assert exists k :: 0 <= k < i && SameCode(list[k], list[i]);
        return false;
      }
      NothingRepeated(list, i);
      ids := if list[i].id.Some? then ids + {list[i].id.value} else ids;
      codes := codes + {list[i].row.code};
      i := i + 1;
    }
    accepted := |list| > 0;
  }

  /** The ids of the first `n` entries. */
  ghost function IdsOf(list: seq<Entry>, n: nat): set<Id>
    requires n <= |list|
  {
    set k | 0 <= k < n && list[k].id.Some? :: list[k].id.value
  }

  ghost function CodesOf(list: seq<Entry>, n: nat): set<string>
    requires n <= |list|
  {
    set k | 0 <= k < n :: list[k].row.code
  }

  ghost predicate NoRepeats(list: seq<Entry>, n: nat)
    requires n <= |list|
  {
    forall i, j :: 0 <= i < j < n ==> !SameId(list[i], list[j]) && !SameCode(list[i], list[j])
  }

  lemma NothingRepeated(list: seq<Entry>, n: nat)
    requires n < |list| && NoRepeats(list, n)
    requires list[n].row.code !in CodesOf(list, n) && (list[n].id.Some? ==> list[n].id.value !in IdsOf(list, n))
    ensures NoRepeats(list, n + 1)
    ensures CodesOf(list, n + 1) == CodesOf(list, n) + {list[n].row.code}
    ensures IdsOf(list, n + 1) == IdsOf(list, n) + if list[n].id.Some? then {list[n].id.value} else {}
  {
    forall i | 0 <= i < n ensures !SameId(list[i], list[n]) && !SameCode(list[i], list[n]) {
      assert list[i].row.code in CodesOf(list, n);
      assert list[i].id.Some? ==> list[i].id.value in IdsOf(list, n);
    }
  }

  predicate UpdatedOptionsFit(t: DataType, update: Option<seq<Entry>>, existing: Options) {
    if t != EnumType then update.Some? ==> update.value == []
    else if update.Some? then update.value != [] && WellFormed(update.value)
    else existing != map[]
  }

  predicate OptionsFitTypeChange(update: Option<seq<Entry>>, declared: bool, existing: Options) {
    if update.Some? && update.value != [] then UpdatedOptionsFit(EnumType, update, existing) else declared
  }
}
