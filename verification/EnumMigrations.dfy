/** Moving stored values onto the options of a new enum, one value after the other.

  A target may name its option by code. The lookup takes the code as it was given,
  the insert takes it trimmed, so what one target finds depends on those before it. */
module EnumMigrations {
  import opened Wrappers
  import opened Text
  import opened OptionLists
  import opened ParameterValues

  function CodesIn(options: Options): set<string> {
    set o | o in options :: options[o].code
  }

  predicate BringsCode(target: Option<Target>) {
    target.Some? && NamesByCode(EnumType, target.value) && target.value.optionCode.Str?
  }

  function LabelOf(target: Target): string
    requires target.optionCode.Str?
  {
    if target.optionLabel.Str? then target.optionLabel.value else target.optionCode.value
  }

  /** The target brings along what it takes to create its option. */
  predicate Creates(target: Target)
    requires target.optionCode.Str?
  {
    && ParseCode(target.optionCode.value).Some?
    && target.optionLabel != NotText && ParseLabel(LabelOf(target)).Some?
  }

  /** The option a target creates. */
  function Created(target: Target): OptionRow
    requires target.optionCode.Str? && Creates(target)
  {
    OptionRow(ParseCode(target.optionCode.value).value, ParseLabel(LabelOf(target)).value, 0)
  }

  /** Does the target end up on an option? `codes` are the codes there are by then. */
  predicate Lands(target: Target, options: Options, codes: set<string>) {
    if NamesByCode(EnumType, target) then
      && target.optionCode.Str?
      && var code := target.optionCode.value;
      && (code in codes || (Creates(target) && Trim(code) !in codes))
    else target.option.Some? && target.option.value in options
  }

  /** The code a target leaves behind once it has landed. */
  function CodeLeft(target: Option<Target>): set<string> {
    if BringsCode(target) then {Trim(target.value.optionCode.value)} else {}
  }

  function CodesLeft(targets: seq<Option<Target>>, k: nat): set<string>
    requires k <= |targets|
  {
    if k == 0 then {} else CodesLeft(targets, k - 1) + CodeLeft(targets[k - 1])
  }

  predicate LandsAt(options: Options, targets: seq<Option<Target>>, k: nat)
    requires k < |targets|
  {
    targets[k].Some? ==> Lands(targets[k].value, options, CodesIn(options) + CodesLeft(targets, k))
  }

  /** What it takes to move values onto an enum in this order. Each target names a code that is present
    already, or one that can be created and whose trimmed form is absent; or it names an option by id. */
  predicate AllLand(options: Options, targets: seq<Option<Target>>) {
    forall k :: 0 <= k < |targets| ==> LandsAt(options, targets, k)
  }

  // ---------------------------------------------------------------------------
  // what becomes of a target
  // ---------------------------------------------------------------------------

  /** The target names its option by this code, blanks around it aside. */
  predicate NamesCode(target: Option<Target>, code: string) {
    && target.Some? && !target.value.hasOptionId && target.value.optionCode.Str?
    && Trim(target.value.optionCode.value) == code
  }

  /** The row of an option that was created for the target: its code, its label or, if it has none, its code
    again, and no particular place in the order. */
  predicate MadeFor(row: OptionRow, target: Option<Target>) {
    && NamesCode(target, row.code) && row.sortOrder == 0
    && match target.value.optionLabel
       case Absent => row.optionLabel == row.code
       case Str(caption) => row.optionLabel == Trim(caption) && row.optionLabel != ""
       case NotText => false
  }

  /** Every option that was not there at the start was created for the first target that names its code. */
  ghost predicate NewFrom(start: Options, options: Options, targets: seq<Option<Target>>, k: nat)
    requires k <= |targets|
  {
    forall o {:trigger HasOrigin(options[o], targets, k)} :: o in options && o !in start ==>
      HasOrigin(options[o], targets, k)
  }

  predicate HasOrigin(row: OptionRow, targets: seq<Option<Target>>, k: nat)
    requires k <= |targets|
  {
    exists j :: 0 <= j < k && FirstFor(row, targets, j)
  }

  predicate FirstFor(row: OptionRow, targets: seq<Option<Target>>, j: nat)
    requires j < |targets|
  {
    MadeFor(row, targets[j]) && forall i :: 0 <= i < j ==> !NamesCode(targets[i], row.code)
  }

  lemma CreatedIsMadeFor(target: Target)
    requires NamesByCode(EnumType, target) && target.optionCode.Str? && Creates(target)
    ensures MadeFor(Created(target), Some(target))
  {
  }

  lemma {:induction false} EarlierCodesAreLeft(targets: seq<Option<Target>>, k: nat, i: nat, code: string)
    requires i < k <= |targets| && NamesCode(targets[i], code)
    ensures code in CodesLeft(targets, k)
  {
    if i < k - 1 {
      EarlierCodesAreLeft(targets, k - 1, i, code);
    }
  }

  /** What a target is refused for: a code that is no text; one that is neither present nor, trimmed, a code
    at all; one that is present only in trimmed form; a label that is no text or blank, where an option has to
    be created; or, without a code, an id that no option has. */
  lemma LandsMeans(target: Target, options: Options, codes: set<string>)
    ensures Lands(target, options, codes) <==>
            if target.hasOptionId || target.optionCode == Absent
            then target.option.Some? && target.option.value in options
            else
              && target.optionCode.Str?
              && (|| target.optionCode.value in codes
                  || (&& IsCode(Trim(target.optionCode.value)) && Trim(target.optionCode.value) !in codes
                      && target.optionLabel != NotText
                      && (target.optionLabel.Str? ==> Trim(target.optionLabel.value) != "")))
  {
  }

  // ---------------------------------------------------------------------------
  // what a single target does to the codes
  // ---------------------------------------------------------------------------

  lemma CodesAreTrimmed(code: Code)
    ensures Trim(code) == code && ParseCode(code) == Some(code)
  {
  }

  lemma CodePresent(options: Options, code: string)
    requires CodesUnique(options)
    ensures code in CodesIn(options) <==> ByCode(options, code).Some?
  {
    if ByCode(options, code).Some? {
      assert options[ByCode(options, code).value].code == code;
    }
  }

  lemma CodeIsFreeIfAbsent(options: Options, id: Id, code: string)
    requires id !in options
    ensures CodeIsFree(options, id, code) <==> code !in CodesIn(options)
  {
    if code in CodesIn(options) {
      var o :| o in options && options[o].code == code;
      assert Holds(options, o, code);
    }
  }

  lemma CodesAfterInsert(options: Options, id: Id, row: OptionRow)
    requires id !in options
    ensures CodesIn(options[id := row]) == CodesIn(options) + {row.code}
  {
    var more := options[id := row];
    forall code ensures code in CodesIn(more) <==> code in CodesIn(options) + {row.code} {
      if code in CodesIn(options) {
        var o :| o in options && options[o].code == code;
        assert more[o].code == code;
      }
      if code == row.code {
        assert more[id].code == code;
      }
    }
  }

  // ---------------------------------------------------------------------------
  // the order of the values
  // ---------------------------------------------------------------------------

  /** A target that names its option by code only, the code being its label, too. */
  function Named(code: string): Target {
    Target(map[], None, false, Str(code), Absent)
  }

  /** The same two targets, one with blanks around its code: they land in one order, and not in the other. */
  lemma OrderDecides(options: Options, code: Code, padded: string)
    requires code !in CodesIn(options) && ParseCode(padded) == Some(code) && padded != code
    ensures AllLand(options, [Some(Named(padded)), Some(Named(code))])
    ensures !AllLand(options, [Some(Named(code)), Some(Named(padded))])
  {
    CodesAreTrimmed(code);
    PaddedIsNoCode(options, padded);
    var good, bad := [Some(Named(padded)), Some(Named(code))], [Some(Named(code)), Some(Named(padded))];
    assert CodesLeft(good, 0) == {} && CodesLeft(bad, 0) == {};
    assert CodesLeft(good, 1) == {Trim(padded)};
    assert CodesLeft(bad, 1) == {Trim(code)};
    assert LandsAt(options, good, 0) && LandsAt(options, good, 1);
    assert !LandsAt(options, bad, 1);
  }

  lemma PaddedIsNoCode(options: Options, padded: string)
    requires Trim(padded) != padded
    ensures padded !in CodesIn(options)
  {
    if padded in CodesIn(options) {
      var o :| o in options && options[o].code == padded;
      CodesAreTrimmed(options[o].code);
    }
  }

  /** At an input: no options, " a " and "a". */
  lemma OrderDecidesAtAnInput()
    ensures AllLand(map[], [Some(Named(" a ")), Some(Named("a"))])
    ensures !AllLand(map[], [Some(Named("a")), Some(Named(" a "))])
  {
    assert Trim("a") == "a" && "a "[..1] == "a" && Trim("a ") == Trim("a") && " a "[1..] == "a ";
    assert Trim(" a ") == Trim("a ");
    OrderDecides(map[], "a", " a ");
  }

  /** Where every code is trimmed, the order of the values does not matter. */
  lemma TrimmedCodesLandInAnyOrder(options: Options, targets: seq<Option<Target>>)
    requires forall k :: 0 <= k < |targets| && targets[k].Some? ==>
                           BringsCode(targets[k]) && SafelyNamed(targets[k].value, options)
    ensures AllLand(options, targets)
  {
  }

  predicate SafelyNamed(target: Target, options: Options)
    requires target.optionCode.Str?
  {
    var code := target.optionCode.value;
    code in CodesIn(options) || (Creates(target) && Trim(code) == code)
  }
}
