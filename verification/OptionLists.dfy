/** Replacing the options of an enum parameter by an incoming list.

  An entry is matched to a stored option by id or, failing that, by code. What is
  matched is updated in place, entry by entry; what is not is dropped first. */
module OptionLists {
  import opened Wrappers
  import opened Text

  type Id = int

  predicate CodeChar(c: char) {
    'a' <= c <= 'z' || '0' <= c <= '9' || c == '_'
  }

  predicate IsCode(s: string) {
    0 < |s| <= 64 && 'a' <= s[0] <= 'z' && forall i :: 0 <= i < |s| ==> CodeChar(s[i])
  }

  /** A code has 1 to 64 characters, the first a lower-case letter, the others lower-case letters, digits and
    underscores. */
  lemma CodesMean(s: string)
    ensures IsCode(s) <==>
            s != "" && |s| < 65 && s[0] in LETTERS && forall c :: c in s ==> c in LETTERS || c in DIGITS || c == '_'
  {
    Alphabet();
    forall i | 0 <= i < |s| ensures s[i] in s {
    }
    assert IsCode(s) ==> forall c :: c in s ==> CodeChar(c);
  }

  /** Codes are parsed before they get here. */
  type Code = s: string | IsCode(s) witness "a"

  datatype OptionRow = OptionRow(code: Code, optionLabel: string, sortOrder: int)

  type Options = map<Id, OptionRow>

  datatype Entry = Entry(id: Option<Id>, row: OptionRow)

  predicate CodesUnique(options: Options) {
    forall a, b :: a in options && b in options && options[a].code == options[b].code ==> a == b
  }

  predicate SameId(a: Entry, b: Entry) {
    a.id.Some? && a.id == b.id
  }

  predicate SameCode(a: Entry, b: Entry) {
    a.row.code == b.row.code
  }

  /** What an incoming list must satisfy whatever is stored. */
  predicate WellFormed(list: seq<Entry>) {
    && (forall i, j :: 0 <= i < j < |list| ==> !SameId(list[i], list[j]))
    && (forall i, j :: 0 <= i < j < |list| ==> !SameCode(list[i], list[j]))
  }

  predicate Known(existing: Options, list: seq<Entry>) {
    forall k :: 0 <= k < |list| && list[k].id.Some? ==> list[k].id.value in existing
  }

  /** `base` and above are ids nobody uses yet. */
  predicate Replaceable(existing: Options, list: seq<Entry>, base: Id) {
    CodesUnique(existing) && WellFormed(list) && Known(existing, list) && forall o :: o in existing ==> o < base
  }

  predicate Holds(options: Options, o: Id, code: string) {
    o in options && options[o].code == code
  }

  function ByCode(existing: Options, code: string): (o: Option<Id>)
    requires CodesUnique(existing)
    ensures o.Some? ==> Holds(existing, o.value, code)
    ensures o.None? ==> forall x :: x in existing ==> !Holds(existing, x, code)
  {
    if exists x :: x in existing && Holds(existing, x, code) then
      var x :| x in existing && Holds(existing, x, code); Some(x)
    else None
  }

  /** The stored option an entry is matched to. */
  function Match(existing: Options, entry: Entry): Option<Id>
    requires CodesUnique(existing)
  {
    if entry.id.Some? then entry.id else ByCode(existing, entry.row.code)
  }

  /** The id an entry is written under. */
  function IdFor(existing: Options, list: seq<Entry>, base: Id, k: nat): Id
    requires CodesUnique(existing) && k < |list|
  {
    var o := Match(existing, list[k]);
    if o.Some? then o.value else base + k
  }

  function RetainedIds(existing: Options, list: seq<Entry>): set<Id>
    requires CodesUnique(existing)
  {
    set k | 0 <= k < |list| && Match(existing, list[k]).Some? :: Match(existing, list[k]).value
  }

  function Retained(existing: Options, list: seq<Entry>): Options
    requires CodesUnique(existing)
  {
    var kept := RetainedIds(existing, list);
    map o | o in existing && o in kept :: existing[o]
  }

  /** The options after the first `k` entries are written. */
  function Written(existing: Options, list: seq<Entry>, base: Id, k: nat): Options
    requires CodesUnique(existing) && k <= |list|
  {
    if k == 0 then Retained(existing, list)
    else Written(existing, list, base, k - 1)[IdFor(existing, list, base, k - 1) := list[k - 1].row]
  }

  // ---------------------------------------------------------------------------
  // which entry has the last word
  // ---------------------------------------------------------------------------

  predicate Untouched(existing: Options, list: seq<Entry>, base: Id, from: nat, k: nat, id: Id)
    requires CodesUnique(existing) && k <= |list|
  {
    forall i :: from <= i < k ==> IdFor(existing, list, base, i) != id
  }

  /** Entry `m` is the last one written under `id`. */
  predicate LastWriter(existing: Options, list: seq<Entry>, base: Id, k: nat, id: Id, m: nat)
    requires CodesUnique(existing) && k <= |list|
  {
    m < k && IdFor(existing, list, base, m) == id && Untouched(existing, list, base, m + 1, k, id)
  }

  lemma {:induction false} WrittenBy(existing: Options, list: seq<Entry>, base: Id, k: nat, id: Id, m: nat)
    requires CodesUnique(existing) && k <= |list| && LastWriter(existing, list, base, k, id, m)
    ensures id in Written(existing, list, base, k) && Written(existing, list, base, k)[id] == list[m].row
  {
    if m < k - 1 {
      WrittenBy(existing, list, base, k - 1, id, m);
    }
  }

  lemma {:induction false} WrittenByNobody(existing: Options, list: seq<Entry>, base: Id, k: nat, id: Id)
    requires CodesUnique(existing) && k <= |list| && Untouched(existing, list, base, 0, k, id)
    ensures id in Written(existing, list, base, k) <==> id in Retained(existing, list)
    ensures id in Retained(existing, list) ==> Written(existing, list, base, k)[id] == existing[id]
  {
    if k > 0 {
      WrittenByNobody(existing, list, base, k - 1, id);
    }
  }

  lemma {:induction false} FindLastWriter(existing: Options, list: seq<Entry>, base: Id, k: nat, id: Id)
    returns (m: Option<nat>)
    requires CodesUnique(existing) && k <= |list|
    ensures m.Some? ==> LastWriter(existing, list, base, k, id, m.value)
    ensures m.None? ==> Untouched(existing, list, base, 0, k, id)
  {
    if k == 0 {
      m := None;
    } else if IdFor(existing, list, base, k - 1) == id {
      m := Some(k - 1);
    } else {
      m := FindLastWriter(existing, list, base, k - 1, id);
    }
  }

  lemma UntouchedAt(existing: Options, list: seq<Entry>, base: Id, k: nat, id: Id)
    requires CodesUnique(existing) && k < |list| && Untouched(existing, list, base, 0, |list|, id)
    ensures Match(existing, list[k]) != Some(id)
  {
    assert IdFor(existing, list, base, k) != id;
  }

  /** Every option of the result was written by some entry. */
  lemma NothingElse(existing: Options, list: seq<Entry>, base: Id, id: Id) returns (m: nat)
    requires Replaceable(existing, list, base) && id in Written(existing, list, base, |list|)
    ensures LastWriter(existing, list, base, |list|, id, m)
    ensures Written(existing, list, base, |list|)[id] == list[m].row
  {
    var writer := FindLastWriter(existing, list, base, |list|, id);
    if writer.None? {
      WrittenByNobody(existing, list, base, |list|, id);
      var k :| 0 <= k < |list| && Match(existing, list[k]) == Some(id);
      UntouchedAt(existing, list, base, k, id);
      assert false;
    }
    m := writer.value;
    WrittenBy(existing, list, base, |list|, id, m);
  }

  // ---------------------------------------------------------------------------
  // when the result is the incoming list
  // ---------------------------------------------------------------------------

  /** Entry `i` has no id, and its code is the stored code of the option that entry `j` claims by id. */
  predicate Collision(existing: Options, list: seq<Entry>, i: nat, j: nat) {
    && i < |list| && j < |list|
    && list[i].id.None? && list[j].id.Some? && Holds(existing, list[j].id.value, list[i].row.code)
  }

  predicate Collides(existing: Options, list: seq<Entry>) {
    exists i, j :: 0 <= i < |list| && 0 <= j < |list| && Collision(existing, list, i, j)
  }

  lemma SharedId(existing: Options, list: seq<Entry>, base: Id, i: nat, j: nat)
    requires Replaceable(existing, list, base) && i < |list| && j < |list| && i != j
    ensures IdFor(existing, list, base, i) == IdFor(existing, list, base, j) <==>
            Collision(existing, list, i, j) || Collision(existing, list, j, i)
  {
    assert !SameId(list[i], list[j]) && !SameCode(list[i], list[j]) by {
      if i < j {
        assert !SameId(list[i], list[j]) && !SameCode(list[i], list[j]);
      } else {
        assert !SameId(list[j], list[i]) && !SameCode(list[j], list[i]);
      }
    }
  }

  predicate Present(options: Options, row: OptionRow) {
    exists id :: id in options && options[id] == row
  }

  predicate AllPresent(options: Options, list: seq<Entry>) {
    forall k :: 0 <= k < |list| ==> Present(options, list[k].row)
  }

  lemma WithoutCollisionAllPresent(existing: Options, list: seq<Entry>, base: Id)
    requires Replaceable(existing, list, base) && !Collides(existing, list)
    ensures AllPresent(Written(existing, list, base, |list|), list)
    ensures forall k :: 0 <= k < |list| ==>
                          var id := IdFor(existing, list, base, k);
                          id in Written(existing, list, base, |list|)
                              && Written(existing, list, base, |list|)[id] == list[k].row
  {
    forall k | 0 <= k < |list|
      ensures var id := IdFor(existing, list, base, k);
              id in Written(existing, list, base, |list|) && Written(existing, list, base, |list|)[id] == list[k].row
    {
      forall i | k < i < |list| ensures IdFor(existing, list, base, i) != IdFor(existing, list, base, k) {
        SharedId(existing, list, base, i, k);
        assert !Collision(existing, list, i, k) && !Collision(existing, list, k, i);
      }
      WrittenBy(existing, list, base, |list|, IdFor(existing, list, base, k), k);
    }
  }

  lemma CollisionLosesAnEntry(existing: Options, list: seq<Entry>, base: Id, i: nat, j: nat)
    requires Replaceable(existing, list, base) && Collision(existing, list, i, j)
    ensures var first := if i < j then i else j;
            !Present(Written(existing, list, base, |list|), list[first].row)
  {
    var first, second := if i < j then i else j, if i < j then j else i;
    SharedId(existing, list, base, i, j);
    var result := Written(existing, list, base, |list|);
    forall id | id in result ensures result[id] != list[first].row {
      var m := NothingElse(existing, list, base, id);
      if m < first {
        assert !SameCode(list[m], list[first]);
      } else if first < m {
        assert !SameCode(list[first], list[m]);
      }
    }
  }

  /** The stored options end up being the incoming list, nothing missing and nothing else, exactly
    if no entry without an id carries the stored code of an option another entry claims by id. */
  lemma ResultIsTheList(existing: Options, list: seq<Entry>, base: Id)
    requires Replaceable(existing, list, base)
    ensures AllPresent(Written(existing, list, base, |list|), list) <==> !Collides(existing, list)
    ensures forall id :: id in Written(existing, list, base, |list|) ==>
                           exists k :: 0 <= k < |list| && list[k].row == Written(existing, list, base, |list|)[id]
  {
    if Collides(existing, list) {
      var i, j :| 0 <= i < |list| && 0 <= j < |list| && Collision(existing, list, i, j);
      CollisionLosesAnEntry(existing, list, base, i, j);
    } else {
      WithoutCollisionAllPresent(existing, list, base);
    }
    forall id | id in Written(existing, list, base, |list|)
      ensures exists k :: 0 <= k < |list| && list[k].row == Written(existing, list, base, |list|)[id]
    {
      var m := NothingElse(existing, list, base, id);
    }
  }

  /** Such a list: the option stored under `a` is claimed by id and renamed, while a new
    option is meant to take over its old code. Only one of the two survives. */
  lemma TakingOverACodeLosesAnOption(row: OptionRow, renamed: OptionRow, successor: OptionRow)
    requires renamed.code != row.code && successor.code == row.code
    ensures var existing := map[1 := row];
            var list := [Entry(Some(1), renamed), Entry(None, successor)];
            Replaceable(existing, list, 2) && Written(existing, list, 2, 2) == map[1 := successor]
  {
    var existing := map[1 := row];
    var list := [Entry(Some(1), renamed), Entry(None, successor)];
    assert Holds(existing, 1, successor.code);
    assert Match(existing, list[1]) == Some(1) && Match(existing, list[0]) == Some(1);
    assert Retained(existing, list) == existing;
    assert Written(existing, list, 2, 1) == map[1 := renamed];
  }

  // ---------------------------------------------------------------------------
  // when a code is taken
  // ---------------------------------------------------------------------------

  /** The unique constraint on codes, for a row written under `id`. */
  predicate CodeIsFree(options: Options, id: Id, code: string) {
    forall o :: o in options && o != id ==> !Holds(options, o, code)
  }

  /** Entry `k` takes a code that a kept option still holds, because the entry that changes it comes later. */
  predicate Blocked(existing: Options, list: seq<Entry>, base: Id, k: nat)
    requires CodesUnique(existing) && k < |list|
  {
    exists o :: o in Retained(existing, list) && Holds(existing, o, list[k].row.code)
                && o != IdFor(existing, list, base, k) && Untouched(existing, list, base, 0, k, o)
  }

  /** The only duplicates the constraint can meet are codes not yet given up. */
  lemma CodeIsFreeUnlessBlocked(existing: Options, list: seq<Entry>, base: Id, k: nat)
    requires Replaceable(existing, list, base) && k < |list|
    ensures CodeIsFree(Written(existing, list, base, k), IdFor(existing, list, base, k), list[k].row.code)
       <==> !Blocked(existing, list, base, k)
  {
    var options, id, code := Written(existing, list, base, k), IdFor(existing, list, base, k), list[k].row.code;
    forall o | o in options && o != id
      ensures Holds(options, o, code) <==>
              o in Retained(existing, list) && Holds(existing, o, code) && Untouched(existing, list, base, 0, k, o)
    {
      var m := FindLastWriter(existing, list, base, k, o);
      if m.Some? {
        WrittenBy(existing, list, base, k, o, m.value);
        assert !SameCode(list[m.value], list[k]);
      } else {
        WrittenByNobody(existing, list, base, k, o);
      }
    }
    forall o | o in Retained(existing, list) && Untouched(existing, list, base, 0, k, o) ensures o in options {
      WrittenByNobody(existing, list, base, k, o);
    }
  }

  /** Two options cannot exchange their codes in one update. */
  lemma ExchangingCodesIsRefused(existing: Options, a: Id, b: Id, rowA: OptionRow, rowB: OptionRow, base: Id)
    requires CodesUnique(existing) && a in existing && b in existing && a != b
    requires rowA.code == existing[b].code && rowB.code == existing[a].code
    ensures Blocked(existing, [Entry(Some(a), rowA), Entry(Some(b), rowB)], base, 0)
  {
    var list := [Entry(Some(a), rowA), Entry(Some(b), rowB)];
    assert Match(existing, list[1]) == Some(b);
    assert b in Retained(existing, list) && Holds(existing, b, list[0].row.code);
  }

  // ---------------------------------------------------------------------------
  // what becomes of a list, entry by entry
  // ---------------------------------------------------------------------------

  /** The entry stands for the stored option: it has its id or, having none, its code. */
  predicate Claims(existing: Options, entry: Entry, o: Id)
    requires o in existing
  {
    entry.id == Some(o) || (entry.id.None? && entry.row.code == existing[o].code)
  }

  /** A stored option is kept exactly if an entry stands for it. */
  lemma RetainedMeans(existing: Options, list: seq<Entry>, o: Id)
    requires CodesUnique(existing)
    ensures o in Retained(existing, list) <==>
            o in existing && exists k :: 0 <= k < |list| && Claims(existing, list[k], o)
    ensures o in Retained(existing, list) ==> Retained(existing, list)[o] == existing[o]
  {
    if o in existing {
      forall k | 0 <= k < |list| ensures Claims(existing, list[k], o) <==> Match(existing, list[k]) == Some(o) {
        ClaimedIsMatched(existing, list[k], o);
      }
      if k :| 0 <= k < |list| && Claims(existing, list[k], o) {
        assert Match(existing, list[k]).value in RetainedIds(existing, list);
      }
      if o in RetainedIds(existing, list) {
        var k :| 0 <= k < |list| && Match(existing, list[k]) == Some(o);
        assert Claims(existing, list[k], o);
      }
    }
  }

  lemma ClaimedIsMatched(existing: Options, entry: Entry, o: Id)
    requires CodesUnique(existing) && o in existing
    ensures Claims(existing, entry, o) <==> Match(existing, entry) == Some(o)
  {
    assert Holds(existing, o, entry.row.code) <==> entry.row.code == existing[o].code;
  }

  /** Without a collision the result holds each entry's row: under the option the entry stands for or, if there
    is none, under an id of its own that nobody had. And it holds nothing else. */
  lemma ListIsStored(existing: Options, list: seq<Entry>, base: Id)
    requires Replaceable(existing, list, base) && !Collides(existing, list)
    ensures var result := Written(existing, list, base, |list|);
            && (forall k :: 0 <= k < |list| ==> EntryIsStored(existing, list[k], result, base + k))
            && (forall id :: id in result ==> StoredFor(existing, list, base, id))
  {
    forall k | 0 <= k < |list|
      ensures EntryIsStored(existing, list[k], Written(existing, list, base, |list|), base + k)
    {
      StoredUnder(existing, list, base, k);
    }
    forall id | id in Written(existing, list, base, |list|) ensures StoredFor(existing, list, base, id) {
      NothingElseStored(existing, list, base, id);
    }
  }

  lemma NothingElseStored(existing: Options, list: seq<Entry>, base: Id, id: Id)
    requires Replaceable(existing, list, base) && id in Written(existing, list, base, |list|)
    ensures StoredFor(existing, list, base, id)
  {
    var m := NothingElse(existing, list, base, id);
    if id in existing {
      ClaimedIsMatched(existing, list[m], id);
    }
  }

  predicate EntryIsStored(existing: Options, entry: Entry, result: Options, newId: Id) {
    && (forall o :: o in existing && Claims(existing, entry, o) ==> o in result && result[o] == entry.row)
    && (Unclaiming(existing, entry) ==> newId in result && newId !in existing && result[newId] == entry.row)
  }

  lemma StoredUnder(existing: Options, list: seq<Entry>, base: Id, k: nat)
    requires Replaceable(existing, list, base) && !Collides(existing, list) && k < |list|
    ensures EntryIsStored(existing, list[k], Written(existing, list, base, |list|), base + k)
  {
    WithoutCollisionAllPresent(existing, list, base);
    forall o | o in existing && Claims(existing, list[k], o) ensures IdFor(existing, list, base, k) == o {
      ClaimedIsMatched(existing, list[k], o);
    }
    assert Unclaiming(existing, list[k]) ==> IdFor(existing, list, base, k) == base + k;
  }

  /** The entry stands for no stored option. */
  predicate Unclaiming(existing: Options, entry: Entry) {
    entry.id.None? && forall o :: o in existing ==> existing[o].code != entry.row.code
  }

  predicate StoredFor(existing: Options, list: seq<Entry>, base: Id, id: Id) {
    if id in existing then exists k :: 0 <= k < |list| && Claims(existing, list[k], id)
    else exists k :: 0 <= k < |list| && id == base + k && Unclaiming(existing, list[k])
  }

  lemma CodesDiffer(list: seq<Entry>, i: nat, j: nat)
    requires WellFormed(list) && i < |list| && j < |list| && i != j
    ensures list[i].row.code != list[j].row.code
  {
    assert !SameCode(if i < j then list[i] else list[j], if i < j then list[j] else list[i]);
  }

  /** An entry is blocked exactly if it has an id, and a later one claims by id the option that holds its code. */
  lemma BlockedMeans(existing: Options, list: seq<Entry>, base: Id, k: nat)
    requires Replaceable(existing, list, base) && k < |list|
    ensures Blocked(existing, list, base, k) <==>
            list[k].id.Some? && exists j :: k < j < |list| && Successor(existing, list[k], list[j])
  {
    if Blocked(existing, list, base, k) {
      var o :| o in Retained(existing, list) && Holds(existing, o, list[k].row.code)
               && o != IdFor(existing, list, base, k) && Untouched(existing, list, base, 0, k, o);
      RetainedMeans(existing, list, o);
      var j :| 0 <= j < |list| && Claims(existing, list[j], o);
      ClaimedIsMatched(existing, list[j], o);
      ClaimedIsMatched(existing, list[k], o);
      assert IdFor(existing, list, base, j) == o;
      if j != k {
        CodesDiffer(list, j, k);
      }
      assert Successor(existing, list[k], list[j]);
    }
    if list[k].id.Some? {
      forall j | k < j < |list| && Successor(existing, list[k], list[j]) ensures Blocked(existing, list, base, k) {
        var o := list[j].id.value;
        RetainedMeans(existing, list, o);
        assert Claims(existing, list[j], o) && !SameId(list[k], list[j]);
        forall i | 0 <= i < k ensures IdFor(existing, list, base, i) != o {
          assert !SameId(list[i], list[j]) && !SameCode(list[i], list[k]);
          ClaimedIsMatched(existing, list[i], o);
        }
      }
    }
  }

  /** `later` claims by id the option that holds the code of `entry`. */
  predicate Successor(existing: Options, entry: Entry, later: Entry) {
    && later.id.Some? && later.id.value in existing
    && existing[later.id.value].code == entry.row.code
  }
}
