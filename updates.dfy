/** The bulk-update workflow of the upload views: classifying each row of an
    uploaded update against the current record (`_check_update`,
    `process_updates`) and marking the approved rows as processed
    (`apply_updates`). The database is a parameter: the pending update and
    its rows are objects, and the current records are a map from entity to
    the record's dictionary. */
module Updates {
  import opened Ascii
  import opened Optional
  import opened PyInt
  import opened Records

  // ---------------------------------------------------------------------
  // `_check_update`

  const AlreadyEnded: string := "This current record has already ended"
  const FieldsMismatch: string := "This records fields do not match the dataset specification"

  /** The keys `_check_update` never reports as changed. */
  const Excluded: set<string> := {"entity", "prefix", "reference", "end-date"}

  /** A cell as an f-string shows it: `None` prints as "None". */
  function Show(cell: Option<string>): string
  {
    match cell
    case None => "None"
    case Some(s) => s
  }

  function ChangeMessage(from: string, to: string): string
  {
    "Updated from '" + from + "' to '" + to + "'"
  }

  /** The per-field changes: every key of the incoming row outside
      `Excluded` whose current value differs, with a message naming both. */
  function Diff(incoming: RawRow, current: RawRow): map<string, string>
  {
    map k | k in incoming && k !in Excluded && RawGet(current, k) != incoming[k]
      :: ChangeMessage(Show(RawGet(current, k)), Show(incoming[k]))
  }

  /** `_check_update(record, current_record, fields)`. `None` where Python
      raises `AttributeError`: an end date that is missing or `None` has no
      `strip`. */
  function CheckUpdate(incoming: RawRow, current: RawRow, fields: seq<string>): (r: Option<map<string, string>>)
    ensures r.None? ==> RawGet(current, "end-date").None? || RawGet(incoming, "end-date").None?
    ensures r.Some? ==> forall k :: k in r.value ==> k == "error" || k == "end-date" || (k in incoming && k !in Excluded)
  {
    var currentEnd := RawGet(current, "end-date");
    if currentEnd.None? then None
    else if !IsPyBlank(currentEnd.value) then Some(map["error" := AlreadyEnded])
    else
      var incomingEnd := RawGet(incoming, "end-date");
      if incomingEnd.None? then None
      else if !IsPyBlank(incomingEnd.value) then
        Some(map["end-date" := ChangeMessage(currentEnd.value, incomingEnd.value)])
      else if incoming.Keys != (set f | f in fields) then Some(map["error" := FieldsMismatch])
      else Some(Diff(incoming, current))
  }

  /** The checks come in a fixed order: a current record that has ended
      wins over everything; then an incoming end date gives a single
      "end-date" entry; then a key set other than the dataset's fields is an
      error; only then are the fields compared. */
  lemma CheckUpdatePriority(incoming: RawRow, current: RawRow, fields: seq<string>)
    ensures RawGet(current, "end-date").Some? && !IsPyBlank(RawGet(current, "end-date").value) ==>
      CheckUpdate(incoming, current, fields) == Some(map["error" := AlreadyEnded])
    ensures RawGet(current, "end-date").Some? && IsPyBlank(RawGet(current, "end-date").value) &&
            RawGet(incoming, "end-date").Some? && !IsPyBlank(RawGet(incoming, "end-date").value) ==>
      CheckUpdate(incoming, current, fields).Some? &&
      CheckUpdate(incoming, current, fields).value.Keys == {"end-date"}
    ensures RawGet(current, "end-date").Some? && IsPyBlank(RawGet(current, "end-date").value) &&
            RawGet(incoming, "end-date").Some? && IsPyBlank(RawGet(incoming, "end-date").value) ==>
      CheckUpdate(incoming, current, fields) ==
        if incoming.Keys != (set f | f in fields) then Some(map["error" := FieldsMismatch])
        else Some(Diff(incoming, current))
    ensures CheckUpdate(incoming, current, fields).None? <==>
      RawGet(current, "end-date").None? ||
      (IsPyBlank(RawGet(current, "end-date").value) && RawGet(incoming, "end-date").None?)
  {
  }

  /** The diff reports exactly the non-excluded keys whose value differs. */
  lemma DiffKeys(incoming: RawRow, current: RawRow)
    ensures forall k :: k in Diff(incoming, current) <==>
      k in incoming && k !in Excluded && RawGet(current, k) != incoming[k]
    ensures Diff(incoming, current) == map[] <==>
      forall k :: k in incoming && k !in Excluded ==> RawGet(current, k) == incoming[k]
  {
    if Diff(incoming, current) != map[] {
      var k :| k in Diff(incoming, current);
    }
  }

  /** The current record once the incoming values of the compared keys have
      been written into it. */
  function Applied(current: RawRow, incoming: RawRow): RawRow
  {
    map k | k in current.Keys + (incoming.Keys - Excluded) ::
      if k in incoming && k !in Excluded then incoming[k] else current[k]
  }

  /** Checking a row again after its changes have been applied finds no
      change. */
  lemma CheckAfterApply(incoming: RawRow, current: RawRow, fields: seq<string>)
    requires CheckUpdate(incoming, current, fields) == Some(Diff(incoming, current))
    requires RawGet(current, "end-date").Some? && IsPyBlank(RawGet(current, "end-date").value)
    requires RawGet(incoming, "end-date").Some? && IsPyBlank(RawGet(incoming, "end-date").value)
    requires incoming.Keys == (set f | f in fields)
    ensures CheckUpdate(incoming, Applied(current, incoming), fields) == Some(map[])
  {
    var after := Applied(current, incoming);
    assert RawGet(after, "end-date") == RawGet(current, "end-date");
    DiffKeys(incoming, after);
  }

  lemma CheckUpdateEndedExample()
    ensures CheckUpdate(map["end-date" := Some("")], map["end-date" := Some("2024-01-01")], ["end-date"])
      == Some(map["error" := AlreadyEnded])
  {
    assert !IsPyBlank("2024-01-01") by {
      assert !IsPySpace("2024-01-01"[0]);
    }
  }

  /** A current end date holding only a no-break space is blank to
      `str.strip()`, so the record has not ended and the rows are compared. */
  lemma CheckUpdateUnicodeBlankExample()
    ensures CheckUpdate(map["end-date" := Some("")], map["end-date" := Some("\U{A0}")], ["end-date"])
      == Some(map[])
  {
    assert IsPyBlank("\U{A0}") by {
      assert "\U{A0}"[0] == '\U{A0}';
    }
    assert map["end-date" := Some("")].Keys == (set f | f in ["end-date"]);
    DiffKeys(map["end-date" := Some("")], map["end-date" := Some("\U{A0}")]);
  }

  // ---------------------------------------------------------------------
  // The update objects

  datatype UpdateStatus = Pending | Complete | Incomplete | Cancelled

  /** What a view answers. */
  datatype Response = Rendered | Redirected | NotFound | ServerError

  /** One row of an uploaded update, with what `process_updates` found
      about it and whether `apply_updates` has applied it. */
  class UpdateRecord {
    const id: int
    const data: RawRow
    var changes: Option<map<string, string>>
    var newRecord: bool
    var processed: bool

    constructor (id: int, data: RawRow)
      ensures this.id == id && this.data == data
      ensures changes.None? && !newRecord && !processed
    {
      this.id := id;
      this.data := data;
      changes := None;
      newRecord := false;
      processed := false;
    }
  }

  /** An uploaded batch of rows for one dataset. */
  class Update {
    const id: int
    const datasetId: string
    var status: UpdateStatus
    const records: seq<UpdateRecord>

    /** Each row of the update is its own database row, so its own object. */
    ghost predicate Valid() {
      Distinct(records)
    }

    constructor (id: int, datasetId: string, records: seq<UpdateRecord>)
      requires Distinct(records)
      ensures this.id == id && this.datasetId == datasetId && this.records == records
      ensures status == Pending
      ensures Valid()
    {
      this.id := id;
      this.datasetId := datasetId;
      this.records := records;
      status := Pending;
    }
  }

  ghost predicate Distinct(records: seq<UpdateRecord>) {
    forall i, j :: 0 <= i < j < |records| ==> records[i] != records[j]
  }

  /** The query both views start with: the update exists, belongs to the
      dataset and is still pending. */
  predicate IsPendingFor(u: Update?, dataset: string)
    reads u
  {
    u != null && u.datasetId == dataset && u.status == Pending
  }

  // ---------------------------------------------------------------------
  // `process_updates`

  /** What `process_updates` does with one row. */
  datatype RowClass =
    | MissingEntity                      // no entity: 404
    | BadEntity                          // `int()` raises: 500
    | CheckFails                         // `_check_update` raises: 500
    | Changed(changes: map<string, string>)   // sets `changes`
    | NewRecord                          // sets `new_record`

  function ClassifyRow(data: RawRow, current: map<int, RawRow>, fields: seq<string>): (c: RowClass)
    ensures c.NewRecord? || c.Changed? || c.CheckFails? ==>
      RawGet(data, "entity").Some? && ParseInt(RawGet(data, "entity").value).Some? &&
      (c.NewRecord? <==> ParseInt(RawGet(data, "entity").value).value !in current)
  {
    var entity := RawGet(data, "entity");
    if entity.None? || IsPyBlank(entity.value) then MissingEntity
    else
      match ParseInt(entity.value)
      case None => BadEntity
      case Some(n) =>
        if n in current then
          match CheckUpdate(data, current[n], fields)
          case None => CheckFails
          case Some(c) => Changed(c)
        else NewRecord
  }

  /** A row whose entity cell holds a number as `str` writes it is matched
      against the current record with that number, if there is one. */
  lemma ClassifyKnownEntity(data: RawRow, current: map<int, RawRow>, fields: seq<string>, n: int)
    requires RawGet(data, "entity") == Some(DecimalString(n))
    ensures n !in current ==> ClassifyRow(data, current, fields) == NewRecord
    ensures n in current && CheckUpdate(data, current[n], fields).Some? ==>
      ClassifyRow(data, current, fields) == Changed(CheckUpdate(data, current[n], fields).value)
    ensures n in current && CheckUpdate(data, current[n], fields).None? ==>
      ClassifyRow(data, current, fields) == CheckFails
  {
    DecimalRoundTrip(n);
    var s := DecimalString(n);
    assert s[0] == '-' || IsDigit(s[0]);
    assert !IsPySpace(s[0]);
  }

  predicate Stops(c: RowClass) { c.MissingEntity? || c.BadEntity? || c.CheckFails? }

  /** The class of every row of an update. */
  function Classes(records: seq<UpdateRecord>, current: map<int, RawRow>, fields: seq<string>): (cs: seq<RowClass>)
    ensures |cs| == |records|
    ensures forall i :: 0 <= i < |records| ==> cs[i] == ClassifyRow(records[i].data, current, fields)
  {
    seq(|records|, i requires 0 <= i < |records| => ClassifyRow(records[i].data, current, fields))
  }

  /** How many rows `process_updates` classifies before it stops: the
      index of the first stopping class, or all of them. */
  function StopIndex(cs: seq<RowClass>): (k: nat)
    ensures k <= |cs|
    ensures forall i :: 0 <= i < k ==> !Stops(cs[i])
    ensures k < |cs| ==> Stops(cs[k])
  {
    if cs == [] || Stops(cs[0]) then 0
    else 1 + StopIndex(cs[1..])
  }

  /** A row's state after `process_updates` classified it as `c`. */
  twostate predicate Classified(r: UpdateRecord, c: RowClass)
    reads r
  {
    && r.processed == old(r.processed)
    && match c
       case Changed(changes) => r.changes == Some(changes) && r.newRecord == old(r.newRecord)
       case NewRecord => r.newRecord && r.changes == old(r.changes)
       case _ => false
  }

  /** One pass of the loop of `process_updates`: reads the row's entity,
      looks the current record up and attaches what it found. A row the
      loop stops at is left as it was. */
  method ProcessRecord(record: UpdateRecord, current: map<int, RawRow>, fields: seq<string>)
    returns (c: RowClass)
    modifies record
    ensures c == ClassifyRow(record.data, current, fields)
    ensures Stops(c) ==> unchanged(record)
    ensures !Stops(c) ==> Classified(record, c)
  {
    var entity := RawGet(record.data, "entity");
    if entity.None? || IsPyBlank(entity.value) {
      return MissingEntity;
    }
    var n := ParseInt(entity.value);
    if n.None? {
      return BadEntity;
    }
    if n.value in current {
      var changes := CheckUpdate(record.data, current[n.value], fields);
      if changes.None? {
        return CheckFails;
      }
      record.changes := changes;
      c := Changed(changes.value);
    } else {
      record.newRecord := true;
      c := NewRecord;
    }
  }

  /** The loop of `process_updates`: classifies the rows in order and stops
      at the first row without an entity (404) or with an entity `int()`
      cannot read or a current record `_check_update` cannot handle (500).
      The rows before the stop keep their classification (each is committed
      as it goes); the rest are untouched. */
  method ProcessRecords(records: seq<UpdateRecord>, current: map<int, RawRow>, fields: seq<string>)
    returns (response: Response)
    requires Distinct(records)
    modifies records
    ensures var cs := Classes(records, current, fields); var k := StopIndex(cs);
      && (forall i :: 0 <= i < k ==> Classified(records[i], cs[i]))
      && (forall i :: k <= i < |records| ==> unchanged(records[i]))
      && response == (if k == |records| then Rendered else if cs[k].MissingEntity? then NotFound else ServerError)
  {
    ghost var cs := Classes(records, current, fields);
    ghost var k := StopIndex(cs);
    var i := 0;
    while i < |records|
      invariant 0 <= i <= k
      invariant forall j :: 0 <= j < i ==> Classified(records[j], cs[j])
      invariant forall j :: i <= j < |records| ==> unchanged(records[j])
    {
      var record := records[i];
      var c := ProcessRecord(record, current, fields);
      assert c == cs[i];
      if Stops(c) {
        assert i == k;
        return if c.MissingEntity? then NotFound else ServerError;
      }
      assert i < k;
      i := i + 1;
    }
    return Rendered;
  }

  /** `process_updates`: 404 unless the update is pending and belongs to the
      dataset; otherwise the loop above over its rows. */
  method ProcessUpdates(dataset: string, u: Update?, current: map<int, RawRow>, fields: seq<string>)
    returns (response: Response)
    requires u != null ==> u.Valid()
    modifies if u != null then u.records else []
    ensures !IsPendingFor(u, dataset) ==> response == NotFound
    ensures !IsPendingFor(u, dataset) && u != null ==> forall r :: r in u.records ==> unchanged(r)
    ensures IsPendingFor(u, dataset) ==>
      var cs := Classes(u.records, current, fields); var k := StopIndex(cs);
      && (forall i :: 0 <= i < k ==> Classified(u.records[i], cs[i]))
      && (forall i :: k <= i < |u.records| ==> unchanged(u.records[i]))
      && response == (if k == |u.records| then Rendered else if cs[k].MissingEntity? then NotFound else ServerError)
  {
    if !IsPendingFor(u, dataset) {
      return NotFound;
    }
    response := ProcessRecords(u.records, current, fields);
  }

  // ---------------------------------------------------------------------
  // `apply_updates`

  /** Whether the form selected a row: its id, written as `str` writes it,
      is among the submitted `record_id` values. */
  predicate Selected(r: UpdateRecord, selected: set<string>) {
    DecimalString(r.id) in selected
  }

  /** The loop of `apply_updates`: marks the selected rows as processed and
      leaves everything else about the rows as it was. */
  method MarkSelected(records: seq<UpdateRecord>, selected: set<string>)
    modifies records
    ensures forall i :: 0 <= i < |records| ==>
      records[i].processed == (old(records[i].processed) || Selected(records[i], selected))
    ensures forall i :: 0 <= i < |records| ==>
      records[i].changes == old(records[i].changes) && records[i].newRecord == old(records[i].newRecord)
  {
    for i := 0 to |records|
      invariant forall j :: 0 <= j < |records| ==>
        records[j].changes == old(records[j].changes) && records[j].newRecord == old(records[j].newRecord)
      invariant forall j :: 0 <= j < |records| ==>
        (old(records[j].processed) ==> records[j].processed) &&
        (records[j].processed ==> old(records[j].processed) || Selected(records[j], selected))
      invariant forall j :: 0 <= j < i && Selected(records[j], selected) ==> records[j].processed
    {
      var updateRecord := records[i];
      if DecimalString(updateRecord.id) in selected {
        updateRecord.processed := true;
      }
    }
  }

  /** `apply_updates`: for a pending update of the dataset, marks exactly
      the selected rows as processed, leaves the others as they were, and
      completes the update whatever was selected. */
  method ApplyUpdates(dataset: string, u: Update?, selected: set<string>)
    returns (response: Response)
    modifies u, if u != null then u.records else []
    ensures !old(IsPendingFor(u, dataset)) ==> response == NotFound
    ensures !old(IsPendingFor(u, dataset)) && u != null ==>
      unchanged(u) && forall r :: r in u.records ==> unchanged(r)
    ensures old(IsPendingFor(u, dataset)) ==>
      && response == Redirected
      && u.status == Complete
      && (forall i :: 0 <= i < |u.records| ==>
            u.records[i].processed == (old(u.records[i].processed) || Selected(u.records[i], selected)))
      && (forall i :: 0 <= i < |u.records| ==>
            u.records[i].changes == old(u.records[i].changes) &&
            u.records[i].newRecord == old(u.records[i].newRecord))
  {
    if !IsPendingFor(u, dataset) {
      return NotFound;
    }
    MarkSelected(u.records, selected);
    u.status := Complete;
    return Redirected;
  }

  /** Each submitted value selects at most one row id, since distinct ids
      are written differently. */
  lemma SelectionByIdOnly(a: UpdateRecord, b: UpdateRecord, value: string)
    requires DecimalString(a.id) == value && DecimalString(b.id) == value
    ensures a.id == b.id
  {
    DecimalStringInjective(a.id, b.id);
  }
}
