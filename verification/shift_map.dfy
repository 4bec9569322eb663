/** The `shift_map` service (api/shift_map/router.py): which worker works which shift on
    which line on a given date. */
module ShiftMap {
  import opened Wrappers
  import opened Columns
  import opened Crud

  const Name: string := "shift_map"

  /** A stored row without its id. */
  datatype Row = Row(workDate: Date, shiftDefId: int, workerId: int, lineId: int, equipId: Option<int>)

  /** A partial-update payload: each field is left out, set to null, or set to a value. */
  datatype Changes = Changes(
    workDate: Patch<Option<Date>>,
    shiftDefId: Patch<Option<int>>,
    workerId: Patch<Option<int>>,
    lineId: Patch<Option<int>>,
    equipId: Patch<Option<int>>)

  /** One `setattr(row, k, v)` of the update loop. */
  datatype Assign =
    | WorkDate(workDate: Date)
    | ShiftDefId(shiftDefId: int)
    | WorkerId(workerId: int)
    | LineId(lineId: int)
    | EquipId(equipId: Option<int>)

  function SetAttr(row: Row, a: Assign): Row {
    match a
    case WorkDate(v) => row.(workDate := v)
    case ShiftDefId(v) => row.(shiftDefId := v)
    case WorkerId(v) => row.(workerId := v)
    case LineId(v) => row.(lineId := v)
    case EquipId(v) => row.(equipId := v)
  }

  /** The payload sets to null a column every stored row must have; committing that fails. */
  predicate ClearsRequired(p: Changes) {
    p.workDate == Set(None) || p.shiftDefId == Set(None) || p.workerId == Set(None) || p.lineId == Set(None)
  }

  /** One entry per declared field, in declaration order: the assignment when the request
      set the field, nothing otherwise. */
  function SetFields(p: Changes): seq<seq<Assign>>
    requires !ClearsRequired(p)
  {
    [ if p.workDate.Set? then [WorkDate(p.workDate.value.value)] else [],
      if p.shiftDefId.Set? then [ShiftDefId(p.shiftDefId.value.value)] else [],
      if p.workerId.Set? then [WorkerId(p.workerId.value.value)] else [],
      if p.lineId.Set? then [LineId(p.lineId.value.value)] else [],
      if p.equipId.Set? then [EquipId(p.equipId.value)] else [] ]
  }

  /** `p.model_dump(exclude_unset=True).items()`: the fields the request set, in declaration
      order. */
  function Assignments(p: Changes): seq<Assign>
    requires !ClearsRequired(p)
  {
    Flatten(SetFields(p))
  }

  /** The row a partial update leaves: each field the request set takes its new value, every
      other field keeps its old one. */
  function Patched(row: Row, p: Changes): Row
    requires !ClearsRequired(p)
  {
    Row(
      p.workDate.Or(Some(row.workDate)).value,
      p.shiftDefId.Or(Some(row.shiftDefId)).value,
      p.workerId.Or(Some(row.workerId)).value,
      p.lineId.Or(Some(row.lineId)).value,
      p.equipId.Or(row.equipId))
  }

  /** Running the assignment loop over the set fields gives the patched row. */
  lemma AssignmentsPatch(row: Row, p: Changes)
    requires !ClearsRequired(p)
    ensures ApplyAll(row, Assignments(p), SetAttr) == Patched(row, p)
  {
    var s := SetFields(p);
    ApplyFlatten(row, s, SetAttr);
    assert s[..5] == s;
    assert StepAll(row, s[..5], SetAttr) == Step(StepAll(row, s[..4], SetAttr), s[4], SetAttr) by {
      assert s[..5][..4] == s[..4];
    }
    assert StepAll(row, s[..4], SetAttr) == Step(StepAll(row, s[..3], SetAttr), s[3], SetAttr) by {
      assert s[..4][..3] == s[..3];
    }
    assert StepAll(row, s[..3], SetAttr) == Step(StepAll(row, s[..2], SetAttr), s[2], SetAttr) by {
      assert s[..3][..2] == s[..2];
    }
    assert StepAll(row, s[..2], SetAttr) == Step(StepAll(row, s[..1], SetAttr), s[1], SetAttr) by {
      assert s[..2][..1] == s[..1];
    }
    assert StepAll(row, s[..1], SetAttr) == Step(row, s[0], SetAttr) by {
      assert s[..1][..0] == [];
    }
  }

  /** The query filters of `GET /shift_map`; an omitted filter keeps every row. */
  predicate Matches(row: Row, workDate: Option<Date>, lineId: Option<int>, workerId: Option<int>) {
    && (workDate.Some? ==> row.workDate == workDate.value)
    && (lineId.Some? ==> row.lineId == lineId.value)
    && (workerId.Some? ==> row.workerId == workerId.value)
  }

  /** The filter of `GET /shift_map`, as the predicate on rows the listing applies. */
  function Keep(workDate: Option<Date>, lineId: Option<int>, workerId: Option<int>): Row -> bool {
    (row: Row) => Matches(row, workDate, lineId, workerId)
  }

  /** `GET /shift_map`: the matching rows in id order, paginated. */
  function List(rows: map<int, Row>, skip: Option<int>, limit: Option<int>,
                workDate: Option<Date>, lineId: Option<int>, workerId: Option<int>)
    : (r: Result<seq<Record<Row>>>)
    ensures r.Ok? ==> RecordsIncreasing(r.value)
    ensures r.Ok? <==> 0 <= skip.GetOr(0) && 0 <= limit.GetOr(DefaultLimit) <= MaxLimit
    ensures limit.GetOr(DefaultLimit) > MaxLimit ==> r == Err(StatusUnprocessable, LimitTooLarge)
    ensures r.Err? && limit.GetOr(DefaultLimit) <= MaxLimit ==> r == Err(StatusServerError, ServerError)
    ensures r.Ok? ==> |r.value| == Min(limit.GetOr(DefaultLimit), Max(0, |Select(rows, Keep(workDate, lineId, workerId))| - skip.GetOr(0)))
    ensures r.Ok? ==> forall i :: 0 <= i < |r.value| ==>
      skip.GetOr(0) + i < |Select(rows, Keep(workDate, lineId, workerId))| && r.value[i] == Select(rows, Keep(workDate, lineId, workerId))[skip.GetOr(0) + i]
    ensures r.Ok? ==> forall x :: x in r.value ==>
      && x.id in rows && x.fields == rows[x.id]
      && (workDate.Some? ==> x.fields.workDate == workDate.value)
      && (lineId.Some? ==> x.fields.lineId == lineId.value)
      && (workerId.Some? ==> x.fields.workerId == workerId.value)
  {
    ListBy(rows, Keep(workDate, lineId, workerId), skip, limit)
  }

  /** `GET /shift_map/{id}`. */
  function Get(rows: map<int, Row>, id: int): (r: Result<Record<Row>>)
    ensures r.Ok? <==> id in rows
    ensures r.Ok? ==> r == Ok(StatusOk, Record(id, rows[id]))
    ensures r.Err? ==> r == Err(StatusNotFound, "shift_map not found")
  {
    Crud.Get(rows, id, Name)
  }

  /** `POST /shift_map`: stores the payload under a new id and answers 201 with the stored row. */
  method Create(table: Table<Row>, p: Row) returns (r: Result<Record<Row>>)
    requires table.Valid()
    modifies table
    ensures table.Valid()
    ensures r.Ok? && r.status == StatusCreated && r.value.fields == p
    ensures r.value.id !in old(table.rows) && table.rows == old(table.rows)[r.value.id := p]
  {
    var row := Row(p.workDate, p.shiftDefId, p.workerId, p.lineId, p.equipId);
    var id := table.Add(row);
    r := Ok(StatusCreated, Record(id, row));
  }

  /** `PATCH /shift_map/{id}`: 404 for a missing id; otherwise the set fields are assigned and
      committed, which fails (500, nothing changed) when a required column is set to null. */
  method Update(table: Table<Row>, id: int, p: Changes) returns (r: Result<Record<Row>>)
    requires table.Valid()
    modifies table
    ensures table.Valid()
    ensures id !in old(table.rows) ==>
      r == Err(StatusNotFound, "shift_map not found") && table.rows == old(table.rows)
    ensures id in old(table.rows) && ClearsRequired(p) ==>
      r == Err(StatusServerError, ServerError) && table.rows == old(table.rows)
    ensures id in old(table.rows) && !ClearsRequired(p) ==>
      && r == Ok(StatusOk, Record(id, Patched(old(table.rows)[id], p)))
      && table.rows == old(table.rows)[id := Patched(old(table.rows)[id], p)]
  {
    if id !in table.rows {
      return Err(StatusNotFound, NotFoundDetail(Name));
    }
    if ClearsRequired(p) {
      return Err(StatusServerError, ServerError);
    }
    AssignmentsPatch(table.rows[id], p);
    table.Assign(id, Assignments(p), SetAttr);
    r := Ok(StatusOk, Record(id, table.rows[id]));
  }

  /** `DELETE /shift_map/{id}`: 404 for a missing id, otherwise the row is removed (204). */
  method Delete(table: Table<Row>, id: int) returns (r: Result<()>)
    requires table.Valid()
    modifies table
    ensures table.Valid()
    ensures id !in old(table.rows) ==>
      r == Err(StatusNotFound, "shift_map not found") && table.rows == old(table.rows)
    ensures id in old(table.rows) ==> r == Ok(StatusNoContent, ()) && table.rows == old(table.rows) - {id}
  {
    if id !in table.rows {
      return Err(StatusNotFound, NotFoundDetail(Name));
    }
    table.Remove(id);
    r := Ok(StatusNoContent, ());
  }
}
