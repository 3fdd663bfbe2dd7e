/** The planning logic of the CSV upload view: which files are accepted,
    which headers are rejected, how rows are grouped by reference, which row
    of a group creates the record and which ones become edits, and which
    entity number each new record gets. Storing the plan (the record
    factory, the change log, the database session) is not modelled. */
module Uploads {
  import opened Ascii
  import opened Optional
  import opened PyInt
  import opened Dates
  import opened Records

  // ---------------------------------------------------------------------
  // The file name check

  /** `s.rsplit(".", 1)[-1]`: the text after the last dot, or all of `s`
      when it has no dot. */
  function AfterLastDot(s: string): (r: string)
    ensures |r| <= |s| && r == s[|s| - |r|..]
    ensures '.' !in r
    ensures |r| < |s| ==> s[|s| - |r| - 1] == '.'
  {
    if s == [] || s[|s| - 1] == '.' then []
    else AfterLastDot(s[..|s| - 1]) + [s[|s| - 1]]
  }

  /** `_allowed_file`. */
  predicate AllowedFile(fileName: string)
    ensures AllowedFile(fileName) ==> |fileName| >= 4 && fileName[|fileName| - 4] == '.'
  {
    '.' in fileName && Lower(AfterLastDot(fileName)) == "csv"
  }

  /** A file is accepted exactly when its name ends in a dot followed by
      "csv" in any mix of cases. */
  lemma AllowedFileIff(name: string)
    ensures AllowedFile(name) <==>
      |name| >= 4 && name[|name| - 4] == '.' && Lower(name[|name| - 3..]) == "csv"
  {
    var r := AfterLastDot(name);
    if AllowedFile(name) {
      assert |r| == 3;
    }
    if |name| >= 4 && name[|name| - 4] == '.' && Lower(name[|name| - 3..]) == "csv" {
      var t := name[|name| - 3..];
      assert '.' !in t by {
        forall i | 0 <= i < 3 ensures t[i] != '.' {
          assert Lower(t)[i] == ToLower(t[i]);
        }
      }
      assert |r| == 3;
      assert r == t;
    }
  }

  // ---------------------------------------------------------------------
  // The header check

  /** `set(reader.fieldnames) - set(fieldnames)`: the columns the dataset
      does not have. */
  function ExtraFields(header: seq<string>, fieldnames: seq<string>): set<string>
  {
    set h | h in header && h !in fieldnames
  }

  // ---------------------------------------------------------------------
  // The entity pre-scan

  /** Whether a row names its entity: `data.get("entity")` is truthy. */
  predicate HasRawEntity(row: RawRow) {
    RawGet(row, "entity").Some? && RawGet(row, "entity").value != ""
  }

  function RawEntity(row: RawRow): string
    requires HasRawEntity(row)
  {
    RawGet(row, "entity").value
  }

  /** Every entity a row names is an integer `int()` accepts. */
  predicate EntitiesParse(rows: seq<RawRow>) {
    forall i :: 0 <= i < |rows| && HasRawEntity(rows[i]) ==> ParseInt(RawEntity(rows[i])).Some?
  }

  /** Every entity the rows name is below `bound`. */
  predicate EntitiesBelow(rows: seq<RawRow>, bound: int)
    requires EntitiesParse(rows)
  {
    forall i :: 0 <= i < |rows| && HasRawEntity(rows[i]) ==> ParseInt(RawEntity(rows[i])).value < bound
  }

  /** The entity counter after the first loop of the upload view, starting
      at the dataset's `entity_minimum` and moved past every larger entity a
      row names; `None` where `int()` raises on an entity. */
  function PreScan(rows: seq<RawRow>, minimum: int): (r: Option<int>)
    ensures r.Some? ==> r.value >= minimum
  {
    if rows == [] then Some(minimum)
    else
      match PreScan(rows[..|rows| - 1], minimum)
      case None => None
      case Some(next) =>
        var last := rows[|rows| - 1];
        if !HasRawEntity(last) then Some(next)
        else
          match ParseInt(RawEntity(last))
          case None => None
          case Some(n) => Some(if n >= next then n + 1 else next)
  }

  lemma EntitiesSnoc(rows: seq<RawRow>, bound: int)
    requires rows != []
    ensures EntitiesParse(rows) <==>
      EntitiesParse(rows[..|rows| - 1]) &&
      (HasRawEntity(rows[|rows| - 1]) ==> ParseInt(RawEntity(rows[|rows| - 1])).Some?)
    ensures EntitiesParse(rows) ==>
      (EntitiesBelow(rows, bound) <==>
         EntitiesBelow(rows[..|rows| - 1], bound) &&
         (HasRawEntity(rows[|rows| - 1]) ==> ParseInt(RawEntity(rows[|rows| - 1])).value < bound))
  {
    var init := rows[..|rows| - 1];
    assert forall i :: 0 <= i < |init| ==> init[i] == rows[i];
    assert rows == init + [rows[|rows| - 1]];
  }

  /** The pre-scan fails exactly when some entity is not an integer. */
  lemma {:induction false} PreScanParses(rows: seq<RawRow>, minimum: int)
    ensures PreScan(rows, minimum).Some? <==> EntitiesParse(rows)
  {
    if rows != [] {
      PreScanParses(rows[..|rows| - 1], minimum);
      EntitiesSnoc(rows, minimum);
    }
  }

  lemma {:induction false} EntitiesBelowRaise(rows: seq<RawRow>, bound: int, bound': int)
    requires EntitiesParse(rows) && EntitiesBelow(rows, bound) && bound <= bound'
    ensures EntitiesBelow(rows, bound')
  {
  }

  /** When it succeeds, the counter is at least `entity_minimum` and above
      every entity the file names. */
  lemma {:induction false} PreScanBounds(rows: seq<RawRow>, minimum: int)
    requires PreScan(rows, minimum).Some?
    ensures EntitiesParse(rows)
    ensures PreScan(rows, minimum).value >= minimum
    ensures EntitiesBelow(rows, PreScan(rows, minimum).value)
  {
    PreScanParses(rows, minimum);
    if rows != [] {
      var init := rows[..|rows| - 1];
      PreScanBounds(init, minimum);
      EntitiesSnoc(rows, PreScan(rows, minimum).value);
      EntitiesBelowRaise(init, PreScan(init, minimum).value, PreScan(rows, minimum).value);
    }
  }

  /** ... and it is either `entity_minimum` itself or one more than an
      entity the file names. */
  lemma {:induction false} PreScanAttained(rows: seq<RawRow>, minimum: int)
    requires PreScan(rows, minimum).Some?
    ensures EntitiesParse(rows)
    ensures || PreScan(rows, minimum).value == minimum
            || exists i :: 0 <= i < |rows| && HasRawEntity(rows[i]) &&
                 ParseInt(RawEntity(rows[i])).value == PreScan(rows, minimum).value - 1
  {
    PreScanParses(rows, minimum);
    if rows != [] {
      var init := rows[..|rows| - 1];
      var last := rows[|rows| - 1];
      PreScanAttained(init, minimum);
      var next := PreScan(init, minimum).value;
      var p := PreScan(rows, minimum).value;
      if HasRawEntity(last) && p != next {
        assert ParseInt(RawEntity(rows[|rows| - 1])).value == p - 1;
      } else if p != minimum {
        var i :| 0 <= i < |init| && HasRawEntity(init[i]) && ParseInt(RawEntity(init[i])).value == next - 1;
        assert rows[i] == init[i];
      }
    }
  }

  // ---------------------------------------------------------------------
  // Grouping by reference

  /** `data.get("reference")`: the key a row is grouped under. */
  function Reference(row: RawRow): Option<string>
  {
    RawGet(row, "reference")
  }

  predicate Occurs(rows: seq<RawRow>, reference: Option<string>) {
    exists i :: 0 <= i < |rows| && Reference(rows[i]) == reference
  }

  /** The position of the first row with a given reference. */
  function FirstIndex(rows: seq<RawRow>, reference: Option<string>): (i: nat)
    requires Occurs(rows, reference)
    ensures i < |rows| && Reference(rows[i]) == reference
    ensures forall j :: 0 <= j < i ==> Reference(rows[j]) != reference
  {
    var init := rows[..|rows| - 1];
    assert forall j :: 0 <= j < |init| ==> init[j] == rows[j];
    if Occurs(init, reference) then FirstIndex(init, reference)
    else
      assert Reference(rows[|rows| - 1]) == reference;
      |rows| - 1
  }

  /** The keys of the `OrderedDict` the upload view builds: each reference
      once, in the order the rows bring them in. */
  function GroupKeys(rows: seq<RawRow>): (keys: seq<Option<string>>)
    ensures |keys| <= |rows|
  {
    if rows == [] then []
    else
      var keys := GroupKeys(rows[..|rows| - 1]);
      var reference := Reference(rows[|rows| - 1]);
      if reference in keys then keys else keys + [reference]
  }

  /** The rows filed under one reference, in file order. */
  function GroupOf(rows: seq<RawRow>, reference: Option<string>): (group: seq<RawRow>)
    ensures forall x :: x in group ==> x in rows && Reference(x) == reference
  {
    if rows == [] then []
    else
      var group := GroupOf(rows[..|rows| - 1], reference);
      if Reference(rows[|rows| - 1]) == reference then group + [rows[|rows| - 1]] else group
  }

  lemma {:induction false} OccursInPrefix(rows: seq<RawRow>, reference: Option<string>)
    requires rows != [] && Occurs(rows[..|rows| - 1], reference)
    ensures Occurs(rows, reference)
    ensures FirstIndex(rows, reference) == FirstIndex(rows[..|rows| - 1], reference)
  {
    var init := rows[..|rows| - 1];
    var i :| 0 <= i < |init| && Reference(init[i]) == reference;
    assert rows[i] == init[i];
  }

  /** The group keys are exactly the references that occur, each once, in
      the order of their first appearance. */
  lemma {:induction false} GroupKeysFirstAppearance(rows: seq<RawRow>)
    ensures forall k :: 0 <= k < |GroupKeys(rows)| ==> Occurs(rows, GroupKeys(rows)[k])
    ensures forall r :: Occurs(rows, r) ==> r in GroupKeys(rows)
    ensures forall a, b :: 0 <= a < b < |GroupKeys(rows)| ==>
      FirstIndex(rows, GroupKeys(rows)[a]) < FirstIndex(rows, GroupKeys(rows)[b])
    ensures forall a, b :: 0 <= a < b < |GroupKeys(rows)| ==> GroupKeys(rows)[a] != GroupKeys(rows)[b]
  {
    if rows != [] {
      var init := rows[..|rows| - 1];
      var last := Reference(rows[|rows| - 1]);
      var keys := GroupKeys(init);
      GroupKeysFirstAppearance(init);
      forall k | 0 <= k < |keys|
        ensures Occurs(rows, keys[k]) && FirstIndex(rows, keys[k]) == FirstIndex(init, keys[k])
        ensures FirstIndex(rows, keys[k]) < |rows| - 1
      {
        OccursInPrefix(rows, keys[k]);
      }
      forall r | Occurs(rows, r)
        ensures r in GroupKeys(rows)
      {
        var i :| 0 <= i < |rows| && Reference(rows[i]) == r;
        if i < |rows| - 1 {
          assert init[i] == rows[i];
        }
      }
      if last !in keys {
        assert Reference(rows[|rows| - 1]) == last;
        assert !Occurs(init, last);
        assert FirstIndex(rows, last) == |rows| - 1;
      }
    }
  }

  /** Every reference that occurs has a non-empty group. */
  lemma {:induction false} GroupOfNonEmpty(rows: seq<RawRow>, reference: Option<string>)
    requires Occurs(rows, reference)
    ensures GroupOf(rows, reference) != []
  {
    var init := rows[..|rows| - 1];
    if Reference(rows[|rows| - 1]) != reference {
      var i :| 0 <= i < |rows| && Reference(rows[i]) == reference;
      assert init[i] == rows[i];
      GroupOfNonEmpty(init, reference);
    }
  }

  /** A reference that is not a group key has no rows. */
  lemma GroupOfAbsent(rows: seq<RawRow>, reference: Option<string>)
    requires reference !in GroupKeys(rows)
    ensures GroupOf(rows, reference) == []
  {
    GroupKeysFirstAppearance(rows);
  }

  /** A group keeps the file order: grouping distributes over a split of
      the file. */
  lemma {:induction false} GroupOfAppend(a: seq<RawRow>, b: seq<RawRow>, reference: Option<string>)
    ensures GroupOf(a + b, reference) == GroupOf(a, reference) + GroupOf(b, reference)
    decreases |b|
  {
    if b == [] {
      assert a + b == a;
    } else {
      var b' := b[..|b| - 1];
      assert (a + b)[..|a + b| - 1] == a + b';
      GroupOfAppend(a, b', reference);
    }
  }

  // ---------------------------------------------------------------------
  // Normalisation

  /** Every row of a group after the normalisation loop. */
  function NormaliseAll(rows: seq<RawRow>): (r: seq<Row>)
    ensures |r| == |rows|
    ensures forall i :: 0 <= i < |rows| ==> r[i] == NormaliseRow(rows[i])
  {
    if rows == [] then [] else NormaliseAll(rows[..|rows| - 1]) + [NormaliseRow(rows[|rows| - 1])]
  }

  /** A row part-way through the normalisation loop: the keys still
      `pending` keep their text. */
  ghost function PartlyNormalised(record: RawRow, pending: set<string>): Row
  {
    map k | k in record :: if k in pending then LiftCell(record[k]) else NormaliseCell(k, record[k])
  }

  lemma NormaliseStep(record: RawRow, pending: set<string>, key: string)
    requires key in pending && pending <= record.Keys
    ensures PartlyNormalised(record, pending - {key})
      == PartlyNormalised(record, pending)[key := NormaliseCell(key, record[key])]
  {
  }

  /** The normalisation loop over one row, rewriting its `-date` cells in
      place. */
  method NormaliseRecord(record: RawRow) returns (row: Row)
    ensures row == NormaliseRow(record)
  {
    row := map k | k in record :: LiftCell(record[k]);
    var pending := record.Keys;
    while pending != {}
      invariant pending <= record.Keys
      invariant row == PartlyNormalised(record, pending)
      decreases |pending|
    {
      var key :| key in pending;
      NormaliseStep(record, pending, key);
      if IsDateKey(key) {
        var value := record[key];
        if value.None? || value.value == "" {
          row := row[key := Null];
        } else {
          row := row[key := AsValue(ParseDate(Text(value.value)))];
        }
      } else {
        assert row == row[key := LiftCell(record[key])];
      }
      pending := pending - {key};
    }
    assert PartlyNormalised(record, {}) == NormaliseRow(record);
  }

  // ---------------------------------------------------------------------
  // The plan

  /** What the upload view does with one reference: the record with row id
      `rowId` and entity `entity` is created from `create`, then each row of
      `edits` is logged against it as an edit, in order. `fromCounter` says
      whether the entity came from the counter. */
  datatype Group = Group(rowId: nat, reference: Option<string>, entity: int, fromCounter: bool,
                         create: Row, edits: seq<Row>)

  /** `original_record.get("entity")` is truthy. */
  predicate HasEntity(row: Row) {
    Get(row, "entity").Text? && Get(row, "entity").text != ""
  }

  predicate EntityParses(row: Row) {
    HasEntity(row) ==> ParseInt(Get(row, "entity").text).Some?
  }

  /** A group the split loop can handle: it has a first row, its end dates
      compare, and the entities it names are integers. */
  predicate Plannable(rows: seq<Row>) {
    && rows != []
    && AllComparable(rows)
    && forall i :: 0 <= i < |rows| ==> EntityParses(rows[i])
  }

  lemma HeadParses(rows: seq<Row>)
    requires Plannable(rows)
    ensures EntityParses(OrderRecords(rows)[0])
  {
    var head := OrderRecords(rows)[0];
    OrderRecordsPermutation(rows);
    assert head in multiset(OrderRecords(rows));
    var i :| 0 <= i < |rows| && rows[i] == head;
  }

  /** One pass of the split loop: order the rows, take the first, give it
      its entity (the one it names, or the next from the counter), and
      keep the rest as edits. */
  function PlanGroup(rowId: nat, reference: Option<string>, rows: seq<Row>, next: int): (r: (Group, int))
    requires Plannable(rows)
    ensures r.0.rowId == rowId && r.0.reference == reference
    ensures |r.0.edits| == |rows| - 1
    ensures r.1 == (if r.0.fromCounter then next + 1 else next)
  {
    var ordered := OrderRecords(rows);
    var head := ordered[0];
    HeadParses(rows);
    if HasEntity(head) then
      var e := ParseInt(Get(head, "entity").text).value;
      (Group(rowId, reference, e, false, head["entity" := Number(e)], ordered[1..]), next)
    else
      (Group(rowId, reference, next, true, head["entity" := Number(next)], ordered[1..]), next + 1)
  }

  predicate GroupsPlannable(keys: seq<Option<string>>, groups: map<Option<string>, seq<Row>>) {
    forall k :: 0 <= k < |keys| ==> keys[k] in groups && Plannable(groups[keys[k]])
  }

  /** The split loop over the group keys, in order, with the entity counter
      starting at `next`: the groups it plans and the final counter. */
  function PlanGroups(keys: seq<Option<string>>, groups: map<Option<string>, seq<Row>>, next: int): (seq<Group>, int)
    requires GroupsPlannable(keys, groups)
  {
    if keys == [] then ([], next)
    else
      var init := keys[..|keys| - 1];
      assert forall k :: 0 <= k < |init| ==> init[k] == keys[k];
      var (planned, counter) := PlanGroups(init, groups, next);
      var (group, counter') := PlanGroup(|keys| - 1, keys[|keys| - 1], groups[keys[|keys| - 1]], counter);
      (planned + [group], counter')
  }

  /** A group moves the counter by one exactly when it takes its entity
      from it. */
  lemma PlanGroupCounter(rowId: nat, reference: Option<string>, rows: seq<Row>, next: int)
    requires Plannable(rows)
    ensures PlanGroup(rowId, reference, rows, next).0.fromCounter ==> PlanGroup(rowId, reference, rows, next).0.entity == next
    ensures PlanGroup(rowId, reference, rows, next).1 == next + (if PlanGroup(rowId, reference, rows, next).0.fromCounter then 1 else 0)
  {
  }

  lemma PlanGroupsStep(keys: seq<Option<string>>, groups: map<Option<string>, seq<Row>>, next: int)
    requires GroupsPlannable(keys, groups) && keys != []
    ensures GroupsPlannable(keys[..|keys| - 1], groups)
    ensures keys[|keys| - 1] in groups && Plannable(groups[keys[|keys| - 1]])
    ensures PlanGroups(keys, groups, next).0 == PlanGroups(keys[..|keys| - 1], groups, next).0
      + [PlanGroup(|keys| - 1, keys[|keys| - 1], groups[keys[|keys| - 1]], PlanGroups(keys[..|keys| - 1], groups, next).1).0]
    ensures PlanGroups(keys, groups, next).1
      == PlanGroup(|keys| - 1, keys[|keys| - 1], groups[keys[|keys| - 1]], PlanGroups(keys[..|keys| - 1], groups, next).1).1
  {
    var init := keys[..|keys| - 1];
    assert forall k :: 0 <= k < |init| ==> init[k] == keys[k];
  }

  /** The group planned for the rows of `reference` at position `rowId`:
      the first row after ordering creates the record, with the entity it
      names when it names one, and the other rows follow as edits in
      order. */
  predicate GroupShaped(group: Group, rowId: nat, reference: Option<string>, rows: seq<Row>)
    requires Plannable(rows)
  {
    var ordered := OrderRecords(rows);
    && group.rowId == rowId
    && group.reference == reference
    && group.create == ordered[0]["entity" := Number(group.entity)]
    && group.edits == ordered[1..]
    && (group.fromCounter <==> !HasEntity(ordered[0]))
    && (!group.fromCounter ==> ParseInt(Get(ordered[0], "entity").text) == Some(group.entity))
  }

  lemma PlanGroupShape(rowId: nat, reference: Option<string>, rows: seq<Row>, next: int)
    requires Plannable(rows)
    ensures GroupShaped(PlanGroup(rowId, reference, rows, next).0, rowId, reference, rows)
  {
    var ordered := OrderRecords(rows);
    var head := ordered[0];
    HeadParses(rows);
    if HasEntity(head) {
      var e := ParseInt(Get(head, "entity").text).value;
      assert PlanGroup(rowId, reference, rows, next).0
        == Group(rowId, reference, e, false, head["entity" := Number(e)], ordered[1..]);
    } else {
      assert PlanGroup(rowId, reference, rows, next).0
        == Group(rowId, reference, next, true, head["entity" := Number(next)], ordered[1..]);
    }
  }

  /** The `g`-th planned group is built from the `g`-th key, with row id `g`. */
  lemma {:induction false} PlanGroupsLength(keys: seq<Option<string>>, groups: map<Option<string>, seq<Row>>, next: int)
    requires GroupsPlannable(keys, groups)
    ensures |PlanGroups(keys, groups, next).0| == |keys|
  {
    if keys != [] {
      PlanGroupsStep(keys, groups, next);
      PlanGroupsLength(keys[..|keys| - 1], groups, next);
    }
  }

  /** The `g`-th group the split loop plans is the group of the `g`-th key. */
  lemma {:induction false} PlanGroupsAt(keys: seq<Option<string>>, groups: map<Option<string>, seq<Row>>, next: int, g: nat)
    requires GroupsPlannable(keys, groups) && g < |keys|
    ensures |PlanGroups(keys, groups, next).0| == |keys|
    ensures GroupShaped(PlanGroups(keys, groups, next).0[g], g, keys[g], groups[keys[g]])
  {
    var init, last := keys[..|keys| - 1], keys[|keys| - 1];
    PlanGroupsStep(keys, groups, next);
    PlanGroupsLength(init, groups, next);
    if g == |keys| - 1 {
      PlanGroupShape(g, last, groups[last], PlanGroups(init, groups, next).1);
    } else {
      PlanGroupsAt(init, groups, next, g);
      assert keys[g] == init[g];
    }
  }

  /** The `g`-th planned group has row id `g` and the `g`-th key. */
  lemma PlanGroupsKeys(keys: seq<Option<string>>, groups: map<Option<string>, seq<Row>>, next: int)
    requires GroupsPlannable(keys, groups)
    ensures |PlanGroups(keys, groups, next).0| == |keys|
    ensures forall g :: 0 <= g < |keys| ==>
      PlanGroups(keys, groups, next).0[g].rowId == g && PlanGroups(keys, groups, next).0[g].reference == keys[g]
  {
    PlanGroupsLength(keys, groups, next);
    var planned := PlanGroups(keys, groups, next).0;
    forall g | 0 <= g < |keys|
      ensures planned[g].rowId == g && planned[g].reference == keys[g]
    {
      PlanGroupsAt(keys, groups, next, g);
    }
  }

  /** How many of the groups took their entity from the counter. */
  function FromCounterCount(groups: seq<Group>): nat
  {
    if groups == [] then 0
    else FromCounterCount(groups[..|groups| - 1]) + (if groups[|groups| - 1].fromCounter then 1 else 0)
  }

  lemma {:induction false} FromCounterCountGrows(groups: seq<Group>, a: nat, b: nat)
    requires a < b <= |groups|
    ensures FromCounterCount(groups[..a]) + (if groups[a].fromCounter then 1 else 0) <= FromCounterCount(groups[..b])
    decreases b - a
  {
    assert groups[..a + 1][..a] == groups[..a];
    if a + 1 < b {
      FromCounterCountGrows(groups, a + 1, b);
      assert groups[..a + 2][..a + 1] == groups[..a + 1];
    }
  }

  /** Appending one group keeps the numbering: a counter-assigned entity is
      `next` plus the number of counter-assigned groups before it. */
  lemma NumberingSnoc(planned: seq<Group>, group: Group, counter: int, next: int)
    requires counter == next + FromCounterCount(planned)
    requires forall g :: 0 <= g < |planned| && planned[g].fromCounter ==>
      planned[g].entity == next + FromCounterCount(planned[..g])
    requires group.fromCounter ==> group.entity == counter
    ensures counter + (if group.fromCounter then 1 else 0) == next + FromCounterCount(planned + [group])
    ensures forall g :: 0 <= g < |planned| + 1 && (planned + [group])[g].fromCounter ==>
      (planned + [group])[g].entity == next + FromCounterCount((planned + [group])[..g])
  {
    var all := planned + [group];
    assert all[..|planned|] == planned;
    forall g | 0 <= g < |all| && all[g].fromCounter
      ensures all[g].entity == next + FromCounterCount(all[..g])
    {
      if g < |planned| {
        assert all[..g] == planned[..g];
      }
    }
  }

  /** Entity numbering: only groups whose first row names no entity move
      the counter, and such a group gets `next` plus the number of such
      groups before it. */
  lemma {:induction false} PlanGroupsNumbering(keys: seq<Option<string>>, groups: map<Option<string>, seq<Row>>, next: int)
    requires GroupsPlannable(keys, groups)
    ensures PlanGroups(keys, groups, next).1 == next + FromCounterCount(PlanGroups(keys, groups, next).0)
    ensures forall g :: 0 <= g < |PlanGroups(keys, groups, next).0| && PlanGroups(keys, groups, next).0[g].fromCounter ==>
      PlanGroups(keys, groups, next).0[g].entity == next + FromCounterCount(PlanGroups(keys, groups, next).0[..g])
  {
    if keys != [] {
      var init, last := keys[..|keys| - 1], keys[|keys| - 1];
      PlanGroupsStep(keys, groups, next);
      PlanGroupsNumbering(init, groups, next);
      var planned, counter := PlanGroups(init, groups, next).0, PlanGroups(init, groups, next).1;
      PlanGroupCounter(|keys| - 1, last, groups[last], counter);
      NumberingSnoc(planned, PlanGroup(|keys| - 1, last, groups[last], counter).0, counter, next);
    }
  }

  /** So the counter-assigned entities are distinct, increasing in group
      order, and fill the range from `next` up to the final counter. */
  lemma PlanGroupsEntities(keys: seq<Option<string>>, groups: map<Option<string>, seq<Row>>, next: int)
    requires GroupsPlannable(keys, groups)
    ensures var (planned, counter) := PlanGroups(keys, groups, next);
      && counter >= next
      && (forall g :: 0 <= g < |planned| && planned[g].fromCounter ==> next <= planned[g].entity < counter)
      && (forall a, b :: 0 <= a < b < |planned| && planned[a].fromCounter && planned[b].fromCounter ==>
            planned[a].entity < planned[b].entity)
  {
    var (planned, counter) := PlanGroups(keys, groups, next);
    PlanGroupsNumbering(keys, groups, next);
    assert planned[..|planned|] == planned;
    forall g | 0 <= g < |planned| && planned[g].fromCounter
      ensures planned[g].entity < counter
    {
      FromCounterCountGrows(planned, g, |planned|);
    }
    forall a, b | 0 <= a < b < |planned| && planned[a].fromCounter && planned[b].fromCounter
      ensures planned[a].entity < planned[b].entity
    {
      FromCounterCountGrows(planned, a, b);
    }
  }

  // ---------------------------------------------------------------------
  // The whole upload

  datatype UploadOutcome =
    | NotCsv                          // the form is shown again
    | Failed                          // an exception was caught and flashed
    | Rejected(extra: set<string>)    // the header has columns the dataset lacks
    | Planned(groups: seq<Group>)     // the records and edits to store

  /** The groups after the normalisation loop, by reference. */
  function NormalisedGroups(rows: seq<RawRow>): map<Option<string>, seq<Row>>
  {
    map r | r in GroupKeys(rows) :: NormaliseAll(GroupOf(rows, r))
  }

  /** Normalisation leaves the entity cell alone and makes the end date
      comparable. */
  lemma NormalisedRowPlannable(row: RawRow)
    requires HasRawEntity(row) ==> ParseInt(RawEntity(row)).Some?
    ensures EndDateComparable(NormaliseRow(row))
    ensures Get(NormaliseRow(row), "entity") == LiftCell(RawGet(row, "entity"))
    ensures HasEntity(NormaliseRow(row)) <==> HasRawEntity(row)
    ensures EntityParses(NormaliseRow(row))
  {
    NormalisedComparable(row);
    EntityIsNotDateKey();
  }

  lemma NormalisedGroupPlannable(rows: seq<RawRow>, reference: Option<string>)
    requires EntitiesParse(rows) && Occurs(rows, reference)
    ensures Plannable(NormaliseAll(GroupOf(rows, reference)))
  {
    var raw := GroupOf(rows, reference);
    var group := NormaliseAll(raw);
    GroupOfNonEmpty(rows, reference);
    forall i | 0 <= i < |group|
      ensures EndDateComparable(group[i]) && EntityParses(group[i])
    {
      assert raw[i] in raw;
      var j :| 0 <= j < |rows| && rows[j] == raw[i];
      NormalisedRowPlannable(raw[i]);
    }
  }

  lemma UploadPlannable(rows: seq<RawRow>)
    requires EntitiesParse(rows)
    ensures GroupsPlannable(GroupKeys(rows), NormalisedGroups(rows))
  {
    var keys := GroupKeys(rows);
    var groups := NormalisedGroups(rows);
    GroupKeysFirstAppearance(rows);
    forall k | 0 <= k < |keys|
      ensures keys[k] in groups && Plannable(groups[keys[k]])
    {
      NormalisedGroupPlannable(rows, keys[k]);
    }
  }

  /** `upload_csv` on a submitted file: the file name check, the header
      check, the entity pre-scan, and the plan. `header` is `None` for an
      empty file (`reader.fieldnames` is `None`, and taking its `set`
      raises). */
  function Upload(fileName: string, header: Option<seq<string>>, rows: seq<RawRow>,
                  fieldnames: seq<string>, entityMinimum: int): (r: UploadOutcome)
    ensures r.Planned? ==> AllowedFile(fileName) && header.Some? && EntitiesParse(rows)
  {
    if !AllowedFile(fileName) then NotCsv
    else if header.None? then Failed
    else if ExtraFields(header.value, fieldnames) != {} then Rejected(ExtraFields(header.value, fieldnames))
    else
      match PreScan(rows, entityMinimum)
      case None => Failed
      case Some(next) =>
        PreScanParses(rows, entityMinimum);
        Planned(PlanRows(rows, next))
  }

  /** Which outcome an upload has: the file name decides first; a missing
      header fails; a header column outside the dataset rejects the file
      (missing columns do not); an entity `int()` cannot read fails. */
  lemma UploadOutcomes(fileName: string, header: Option<seq<string>>, rows: seq<RawRow>,
                       fieldnames: seq<string>, entityMinimum: int)
    ensures Upload(fileName, header, rows, fieldnames, entityMinimum).NotCsv? <==> !AllowedFile(fileName)
    ensures Upload(fileName, header, rows, fieldnames, entityMinimum).Rejected? <==>
      AllowedFile(fileName) && header.Some? && exists h :: h in header.value && h !in fieldnames
    ensures Upload(fileName, header, rows, fieldnames, entityMinimum).Rejected? ==>
      forall h :: h in Upload(fileName, header, rows, fieldnames, entityMinimum).extra <==>
        h in header.value && h !in fieldnames
    ensures Upload(fileName, header, rows, fieldnames, entityMinimum).Failed? <==>
      AllowedFile(fileName) &&
      (header.None? || ((forall h :: h in header.value ==> h in fieldnames) && !EntitiesParse(rows)))
  {
    PreScanParses(rows, entityMinimum);
    if AllowedFile(fileName) && header.Some? {
      if exists h :: h in header.value && h !in fieldnames {
        var h :| h in header.value && h !in fieldnames;
        assert h in ExtraFields(header.value, fieldnames);
      }
    }
  }

  /** The groups a file with readable entities is split into, the counter
      starting at `next`. */
  function PlanRows(rows: seq<RawRow>, next: int): seq<Group>
    requires EntitiesParse(rows)
  {
    UploadPlannable(rows);
    PlanGroups(GroupKeys(rows), NormalisedGroups(rows), next).0
  }

  /** A planned upload is the split of its rows, the counter starting where
      the pre-scan left it. */
  lemma UploadPlanned(fileName: string, header: Option<seq<string>>, rows: seq<RawRow>,
                      fieldnames: seq<string>, entityMinimum: int)
    requires Upload(fileName, header, rows, fieldnames, entityMinimum).Planned?
    ensures PreScan(rows, entityMinimum).Some? && EntitiesParse(rows)
    ensures Upload(fileName, header, rows, fieldnames, entityMinimum).groups
      == PlanRows(rows, PreScan(rows, entityMinimum).value)
  {
    PreScanParses(rows, entityMinimum);
  }

  /** One group per reference: the `g`-th planned group has row id `g` and
      the `g`-th reference to appear in the file. */
  lemma PlanRowsOrder(rows: seq<RawRow>, next: int)
    requires EntitiesParse(rows)
    ensures |PlanRows(rows, next)| == |GroupKeys(rows)|
    ensures forall g :: 0 <= g < |GroupKeys(rows)| ==>
      PlanRows(rows, next)[g].rowId == g && PlanRows(rows, next)[g].reference == GroupKeys(rows)[g]
  {
    UploadPlannable(rows);
    PlanGroupsKeys(GroupKeys(rows), NormalisedGroups(rows), next);
  }

  /** Each group's record is created from the first row of its reference
      after ordering (the earliest end date, first in the file among equal
      ones), with the group's entity; every other row of the reference
      follows as an edit, in order. */
  lemma PlanRowsRecords(rows: seq<RawRow>, next: int)
    requires EntitiesParse(rows)
    ensures forall g :: 0 <= g < |PlanRows(rows, next)| ==>
      var group := PlanRows(rows, next)[g];
      Occurs(rows, group.reference) &&
      var normalised := NormaliseAll(GroupOf(rows, group.reference));
      normalised != [] && AllComparable(normalised) &&
      var ordered := OrderRecords(normalised);
      && group.create == ordered[0]["entity" := Number(group.entity)]
      && group.edits == ordered[1..]
  {
    UploadPlannable(rows);
    var keys := GroupKeys(rows);
    PlanGroupsLength(keys, NormalisedGroups(rows), next);
    GroupKeysFirstAppearance(rows);
    forall g | 0 <= g < |keys|
      ensures GroupOf(rows, keys[g]) != []
      ensures GroupShaped(PlanRows(rows, next)[g], g, keys[g], NormalisedGroups(rows)[keys[g]])
    {
      GroupOfNonEmpty(rows, keys[g]);
      PlanGroupsAt(keys, NormalisedGroups(rows), next, g);
    }
  }

  /** Entities: a group whose first row names an entity keeps it, read as
      an integer; the others take numbers from the counter, distinct and
      increasing in group order, at least `entity_minimum` and above every
      entity the file names. */
  lemma PlanRowsEntities(rows: seq<RawRow>, minimum: int)
    requires PreScan(rows, minimum).Some?
    ensures EntitiesParse(rows)
    ensures forall g :: 0 <= g < |PlanRows(rows, PreScan(rows, minimum).value)| ==>
      var group := PlanRows(rows, PreScan(rows, minimum).value)[g];
      group.fromCounter ==> group.entity >= minimum && EntitiesBelow(rows, group.entity)
    ensures forall a, b :: 0 <= a < b < |PlanRows(rows, PreScan(rows, minimum).value)| ==>
      var planned := PlanRows(rows, PreScan(rows, minimum).value);
      planned[a].fromCounter && planned[b].fromCounter ==> planned[a].entity < planned[b].entity
    ensures forall g :: 0 <= g < |PlanRows(rows, PreScan(rows, minimum).value)| ==>
      var group := PlanRows(rows, PreScan(rows, minimum).value)[g];
      !group.fromCounter ==> ExplicitEntity(rows, group.reference, group.entity)
  {
    var next := PreScan(rows, minimum).value;
    PreScanBounds(rows, minimum);
    UploadPlannable(rows);
    var keys := GroupKeys(rows);
    var groups := NormalisedGroups(rows);
    PlanGroupsEntities(keys, groups, next);
    var planned := PlanRows(rows, next);
    forall g | 0 <= g < |planned| && planned[g].fromCounter
      ensures EntitiesBelow(rows, planned[g].entity)
    {
      EntitiesBelowRaise(rows, next, planned[g].entity);
    }
    forall g | 0 <= g < |planned| && !planned[g].fromCounter
      ensures ExplicitEntity(rows, planned[g].reference, planned[g].entity)
    {
      PlanRowsExplicit(rows, next, g);
    }
  }

  /** Some row with this reference names this entity. */
  predicate ExplicitEntity(rows: seq<RawRow>, reference: Option<string>, entity: int) {
    exists i :: 0 <= i < |rows| && HasRawEntity(rows[i]) && Reference(rows[i]) == reference &&
      ParseInt(RawEntity(rows[i])) == Some(entity)
  }

  /** The row that creates a group's record comes from the file, with the
      group's reference; so an entity it names is written in the file. */
  lemma HeadIsFileRow(rows: seq<RawRow>, reference: Option<string>)
    requires EntitiesParse(rows) && Occurs(rows, reference)
    ensures Plannable(NormaliseAll(GroupOf(rows, reference)))
    ensures var head := OrderRecords(NormaliseAll(GroupOf(rows, reference)))[0];
      HasEntity(head) ==>
        ParseInt(Get(head, "entity").text).Some? &&
        ExplicitEntity(rows, reference, ParseInt(Get(head, "entity").text).value)
  {
    NormalisedGroupPlannable(rows, reference);
    var raw := GroupOf(rows, reference);
    var group := NormaliseAll(raw);
    var head := OrderRecords(group)[0];
    OrderRecordsPermutation(group);
    assert head in multiset(group);
    var j :| 0 <= j < |group| && group[j] == head;
    assert raw[j] in raw;
    var i :| 0 <= i < |rows| && rows[i] == raw[j];
    NormalisedRowPlannable(rows[i]);
  }

  lemma PlanRowsExplicit(rows: seq<RawRow>, next: int, g: nat)
    requires EntitiesParse(rows) && g < |PlanRows(rows, next)| && !PlanRows(rows, next)[g].fromCounter
    ensures ExplicitEntity(rows, PlanRows(rows, next)[g].reference, PlanRows(rows, next)[g].entity)
  {
    UploadPlannable(rows);
    var keys := GroupKeys(rows);
    var groups := NormalisedGroups(rows);
    PlanGroupsLength(keys, groups, next);
    PlanGroupsAt(keys, groups, next, g);
    GroupKeysFirstAppearance(rows);
    HeadIsFileRow(rows, keys[g]);
    assert GroupShaped(PlanRows(rows, next)[g], g, keys[g], groups[keys[g]]);
  }

  /** The first loop of the upload view: moves the entity counter past the
      entities the rows name and files each row under its reference.
      `None` where `int()` raises on an entity. */
  method ScanRows(rows: seq<RawRow>, entityMinimum: int)
    returns (counter: Option<int>, keys: seq<Option<string>>, records: map<Option<string>, seq<RawRow>>)
    ensures counter == PreScan(rows, entityMinimum)
    ensures counter.Some? ==> keys == GroupKeys(rows)
    ensures counter.Some? ==> forall r :: r in records <==> r in keys
    ensures counter.Some? ==> forall r :: r in records ==> records[r] == GroupOf(rows, r)
  {
    var startingEntity := entityMinimum;
    keys := [];
    records := map[];
    for i := 0 to |rows|
      invariant PreScan(rows[..i], entityMinimum) == Some(startingEntity)
      invariant keys == GroupKeys(rows[..i])
      invariant forall r :: r in records <==> r in keys
      invariant forall r :: r in records ==> records[r] == GroupOf(rows[..i], r)
    {
      ScanStepCounter(rows, i, entityMinimum, startingEntity);
      ScanStepGroups(rows, i, keys, records);
      var data := rows[i];
      var entity := RawGet(data, "entity");
      if entity.Some? && entity.value != "" {
        var n := ParseInt(entity.value);
        if n.None? {
          PreScanFailsAt(rows, i, entityMinimum);
          return None, keys, records;
        }
        if n.value >= startingEntity {
          startingEntity := n.value + 1;
        }
      }
      var reference := Reference(data);
      if reference !in records {
        records := records[reference := [data]];
        keys := keys + [reference];
      } else {
        records := records[reference := records[reference] + [data]];
      }
    }
    assert rows[..|rows|] == rows;
    counter := Some(startingEntity);
  }

  lemma ScanStepGroups(rows: seq<RawRow>, i: nat, keys: seq<Option<string>>,
                       records: map<Option<string>, seq<RawRow>>)
    requires i < |rows|
    requires keys == GroupKeys(rows[..i])
    requires forall r :: r in records <==> r in keys
    requires forall r :: r in records ==> records[r] == GroupOf(rows[..i], r)
    ensures var reference := Reference(rows[i]);
      var keys' := if reference in records then keys else keys + [reference];
      var records' := if reference in records then records[reference := records[reference] + [rows[i]]]
                      else records[reference := [rows[i]]];
      && keys' == GroupKeys(rows[..i + 1])
      && (forall r :: r in records' <==> r in keys')
      && (forall r :: r in records' ==> records'[r] == GroupOf(rows[..i + 1], r))
  {
    assert rows[..i + 1][..i] == rows[..i];
    if Reference(rows[i]) !in records {
      GroupOfAbsent(rows[..i], Reference(rows[i]));
    }
  }

  lemma ScanStepCounter(rows: seq<RawRow>, i: nat, minimum: int, counter: int)
    requires i < |rows| && PreScan(rows[..i], minimum) == Some(counter)
    ensures !HasRawEntity(rows[i]) ==> PreScan(rows[..i + 1], minimum) == Some(counter)
    ensures HasRawEntity(rows[i]) && ParseInt(RawEntity(rows[i])).Some? ==>
      var n := ParseInt(RawEntity(rows[i])).value;
      PreScan(rows[..i + 1], minimum) == Some(if n >= counter then n + 1 else counter)
  {
    var prefix := rows[..i + 1];
    assert prefix[..|prefix| - 1] == rows[..i];
    assert prefix[|prefix| - 1] == rows[i];
    PreScanSnoc(prefix, minimum);
  }

  lemma PreScanSnoc(rows: seq<RawRow>, minimum: int)
    requires rows != [] && PreScan(rows[..|rows| - 1], minimum).Some?
    ensures var counter := PreScan(rows[..|rows| - 1], minimum).value;
      var last := rows[|rows| - 1];
      && (!HasRawEntity(last) ==> PreScan(rows, minimum) == Some(counter))
      && (HasRawEntity(last) && ParseInt(RawEntity(last)).Some? ==>
            var n := ParseInt(RawEntity(last)).value;
            PreScan(rows, minimum) == Some(if n >= counter then n + 1 else counter))
  {
  }

  /** One entity `int()` cannot read makes the whole pre-scan fail. */
  lemma PreScanFailsAt(rows: seq<RawRow>, i: nat, minimum: int)
    requires i < |rows| && HasRawEntity(rows[i]) && ParseInt(RawEntity(rows[i])).None?
    ensures PreScan(rows, minimum).None?
  {
    PreScanParses(rows, minimum);
  }

  /** The normalisation loop over the rows of one reference. */
  method NormaliseGroup(data: seq<RawRow>) returns (group: seq<Row>)
    ensures group == NormaliseAll(data)
  {
    group := [];
    for j := 0 to |data|
      invariant group == NormaliseAll(data[..j])
    {
      assert data[..j + 1][..j] == data[..j];
      var record := NormaliseRecord(data[j]);
      group := group + [record];
    }
    assert data[..|data|] == data;
  }

  /** The normalisation loop over every reference. */
  method NormaliseRecords(keys: seq<Option<string>>, records: map<Option<string>, seq<RawRow>>)
    returns (normalised: map<Option<string>, seq<Row>>)
    requires forall r :: r in keys ==> r in records
    ensures forall r :: r in normalised <==> r in keys
    ensures forall r :: r in normalised ==> normalised[r] == NormaliseAll(records[r])
  {
    normalised := map[];
    for k := 0 to |keys|
      invariant forall r :: r in normalised <==> r in keys[..k]
      invariant forall r :: r in normalised ==> normalised[r] == NormaliseAll(records[r])
    {
      assert keys[..k + 1] == keys[..k] + [keys[k]];
      var group := NormaliseGroup(records[keys[k]]);
      normalised := normalised[keys[k] := group];
    }
    assert keys[..|keys|] == keys;
  }

  /** One pass of the split loop: the record-creating row of a reference
      and the entity it gets. */
  method SplitGroup(rowId: nat, reference: Option<string>, rows: seq<Row>, counter: int)
    returns (group: Group, counter': int)
    requires Plannable(rows)
    ensures (group, counter') == PlanGroup(rowId, reference, rows, counter)
  {
    var ordered := OrderRecords(rows);
    var originalRecord := ordered[0];
    HeadParses(rows);
    var entity: int;
    var fromCounter: bool;
    counter' := counter;
    if !HasEntity(originalRecord) {
      entity := counter;
      counter' := counter + 1;
      fromCounter := true;
    } else {
      entity := ParseInt(Get(originalRecord, "entity").text).value;
      fromCounter := false;
    }
    originalRecord := originalRecord["entity" := Number(entity)];
    group := Group(rowId, reference, entity, fromCounter, originalRecord, ordered[1..]);
  }

  /** The split loop: one group per reference, in key order. */
  method SplitGroups(keys: seq<Option<string>>, normalised: map<Option<string>, seq<Row>>, next: int)
    returns (groups: seq<Group>, counter: int)
    requires GroupsPlannable(keys, normalised)
    ensures (groups, counter) == PlanGroups(keys, normalised, next)
  {
    groups := [];
    counter := next;
    for rowId := 0 to |keys|
      invariant GroupsPlannable(keys[..rowId], normalised)
      invariant (groups, counter) == PlanGroups(keys[..rowId], normalised, next)
    {
      PlanGroupsStep(keys[..rowId + 1], normalised, next);
      assert keys[..rowId + 1][..rowId] == keys[..rowId];
      var group;
      group, counter := SplitGroup(rowId, keys[rowId], normalised[keys[rowId]], counter);
      groups := groups + [group];
    }
    assert keys[..|keys|] == keys;
  }

  /** `upload_csv` after the form is submitted, over the header and rows
      `csv.DictReader` yields. */
  method UploadCsv(fileName: string, header: Option<seq<string>>, rows: seq<RawRow>,
                   fieldnames: seq<string>, entityMinimum: int)
    returns (outcome: UploadOutcome)
    ensures outcome == Upload(fileName, header, rows, fieldnames, entityMinimum)
  {
    if !AllowedFile(fileName) {
      return NotCsv;
    }
    if header.None? {
      return Failed;
    }
    var additionalFields := ExtraFields(header.value, fieldnames);
    if additionalFields != {} {
      return Rejected(additionalFields);
    }
    var counter, keys, records := ScanRows(rows, entityMinimum);
    if counter.None? {
      return Failed;
    }
    var normalised := NormaliseRecords(keys, records);
    assert normalised == NormalisedGroups(rows);
    PreScanParses(rows, entityMinimum);
    UploadPlannable(rows);
    var groups, _ := SplitGroups(keys, normalised, counter.value);
    return Planned(groups);
  }
}
