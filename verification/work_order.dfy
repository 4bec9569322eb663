/** The `work_order` service (api/work_order/router.py): the production orders with their
    targets and planned dates. */
module WorkOrder {
  import opened Wrappers
  import opened Columns
  import opened Crud

  const Name: string := "work_order"

  /** A stored row without its id. */
  datatype Row = Row(orderNo: string, modelName: Option<string>, targetCnt: Option<int>, sopLink: Option<string>, startDate: Option<DateTime>, endDate: Option<DateTime>)

  /** A partial-update payload: each field is left out, set to null, or set to a value. */
  datatype Changes = Changes(
    orderNo: Patch<Option<string>>,
    modelName: Patch<Option<string>>,
    targetCnt: Patch<Option<int>>,
    sopLink: Patch<Option<string>>,
    startDate: Patch<Option<DateTime>>,
    endDate: Patch<Option<DateTime>>)

  /** One `setattr(row, k, v)` of the update loop. */
  datatype Assign =
    | OrderNo(orderNo: string)
    | ModelName(modelName: Option<string>)
    | TargetCnt(targetCnt: Option<int>)
    | SopLink(sopLink: Option<string>)
    | StartDate(startDate: Option<DateTime>)
    | EndDate(endDate: Option<DateTime>)

  function SetAttr(row: Row, a: Assign): Row {
    match a
    case OrderNo(v) => row.(orderNo := v)
    case ModelName(v) => row.(modelName := v)
    case TargetCnt(v) => row.(targetCnt := v)
    case SopLink(v) => row.(sopLink := v)
    case StartDate(v) => row.(startDate := v)
    case EndDate(v) => row.(endDate := v)
  }

  /** The payload sets to null a column every stored row must have; committing that fails. */
  predicate ClearsRequired(p: Changes) {
    p.orderNo == Set(None)
  }

  /** One entry per declared field, in declaration order: the assignment when the request
      set the field, nothing otherwise. */
  function SetFields(p: Changes): seq<seq<Assign>>
    requires !ClearsRequired(p)
  {
    [ if p.orderNo.Set? then [OrderNo(p.orderNo.value.value)] else [],
      if p.modelName.Set? then [ModelName(p.modelName.value)] else [],
      if p.targetCnt.Set? then [TargetCnt(p.targetCnt.value)] else [],
      if p.sopLink.Set? then [SopLink(p.sopLink.value)] else [],
      if p.startDate.Set? then [StartDate(p.startDate.value)] else [],
      if p.endDate.Set? then [EndDate(p.endDate.value)] else [] ]
  }

  /** `p.model_dump(exclude_unset=True).items()`: the fields the request set, in declaration
      order. */
  function Assignments(p: Changes): seq<Assign>
    requires !ClearsRequired(p)
  {
    Flatten(SetFields(p))
  }

  /** The row a partial update leaves: each field the request set takes its new value, every
      other field keeps its old one. */
  function Patched(row: Row, p: Changes): Row
    requires !ClearsRequired(p)
  {
    Row(
      p.orderNo.Or(Some(row.orderNo)).value,
      p.modelName.Or(row.modelName),
      p.targetCnt.Or(row.targetCnt),
      p.sopLink.Or(row.sopLink),
      p.startDate.Or(row.startDate),
      p.endDate.Or(row.endDate))
  }

  /** Running the assignment loop over the set fields gives the patched row. */
  lemma AssignmentsPatch(row: Row, p: Changes)
    requires !ClearsRequired(p)
    ensures ApplyAll(row, Assignments(p), SetAttr) == Patched(row, p)
  {
    var s := SetFields(p);
    ApplyFlatten(row, s, SetAttr);
    assert s[..6] == s;
    assert StepAll(row, s[..6], SetAttr) == Step(StepAll(row, s[..5], SetAttr), s[5], SetAttr) by {
      assert s[..6][..5] == s[..5];
    }
    assert StepAll(row, s[..5], SetAttr) == Step(StepAll(row, s[..4], SetAttr), s[4], SetAttr) by {
      assert s[..5][..4] == s[..4];
    }
    assert StepAll(row, s[..4], SetAttr) == Step(StepAll(row, s[..3], SetAttr), s[3], SetAttr) by {
      assert s[..4][..3] == s[..3];
    }
    assert StepAll(row, s[..3], SetAttr) == Step(StepAll(row, s[..2], SetAttr), s[2], SetAttr) by {
      assert s[..3][..2] == s[..2];
    }
    assert StepAll(row, s[..2], SetAttr) == Step(StepAll(row, s[..1], SetAttr), s[1], SetAttr) by {
      assert s[..2][..1] == s[..1];
    }
    assert StepAll(row, s[..1], SetAttr) == Step(row, s[0], SetAttr) by {
      assert s[..1][..0] == [];
    }
  }

  /** `GET /work_order` has no filter: every row is listed. */
  function Keep(): Row -> bool {
    (row: Row) => true
  }

  /** `GET /work_order`: every row in id order, paginated. */
  function List(rows: map<int, Row>, skip: Option<int>, limit: Option<int>)
    : (r: Result<seq<Record<Row>>>)
    ensures r.Ok? ==> RecordsIncreasing(r.value)
    ensures r.Ok? <==> 0 <= skip.GetOr(0) && 0 <= limit.GetOr(DefaultLimit) <= MaxLimit
    ensures limit.GetOr(DefaultLimit) > MaxLimit ==> r == Err(StatusUnprocessable, LimitTooLarge)
    ensures r.Err? && limit.GetOr(DefaultLimit) <= MaxLimit ==> r == Err(StatusServerError, ServerError)
    ensures r.Ok? ==> |r.value| == Min(limit.GetOr(DefaultLimit), Max(0, |Select(rows, Keep())| - skip.GetOr(0)))
    ensures r.Ok? ==> forall i :: 0 <= i < |r.value| ==>
      skip.GetOr(0) + i < |Select(rows, Keep())| && r.value[i] == Select(rows, Keep())[skip.GetOr(0) + i]
    ensures r.Ok? ==> forall x :: x in r.value ==> x.id in rows && x.fields == rows[x.id]
  {
    ListBy(rows, Keep(), skip, limit)
  }

  /** `GET /work_order/{id}`. */
  function Get(rows: map<int, Row>, id: int): (r: Result<Record<Row>>)
    ensures r.Ok? <==> id in rows
    ensures r.Ok? ==> r == Ok(StatusOk, Record(id, rows[id]))
    ensures r.Err? ==> r == Err(StatusNotFound, "work_order not found")
  {
    Crud.Get(rows, id, Name)
  }

  /** `POST /work_order`: stores the payload under a new id and answers 201 with the stored row. */
  method Create(table: Table<Row>, p: Row) returns (r: Result<Record<Row>>)
    requires table.Valid()
    modifies table
    ensures table.Valid()
    ensures r.Ok? && r.status == StatusCreated && r.value.fields == p
    ensures r.value.id !in old(table.rows) && table.rows == old(table.rows)[r.value.id := p]
  {
    var row := Row(p.orderNo, p.modelName, p.targetCnt, p.sopLink, p.startDate, p.endDate);
    var id := table.Add(row);
    r := Ok(StatusCreated, Record(id, row));
  }

  /** `PATCH /work_order/{id}`: 404 for a missing id; otherwise the set fields are assigned and
      committed, which fails (500, nothing changed) when a required column is set to null. */
  method Update(table: Table<Row>, id: int, p: Changes) returns (r: Result<Record<Row>>)
    requires table.Valid()
    modifies table
    ensures table.Valid()
    ensures id !in old(table.rows) ==>
      r == Err(StatusNotFound, "work_order not found") && table.rows == old(table.rows)
    ensures id in old(table.rows) && ClearsRequired(p) ==>
      r == Err(StatusServerError, ServerError) && table.rows == old(table.rows)
    ensures id in old(table.rows) && !ClearsRequired(p) ==>
      && r == Ok(StatusOk, Record(id, Patched(old(table.rows)[id], p)))
      && table.rows == old(table.rows)[id := Patched(old(table.rows)[id], p)]
  {
    if id !in table.rows {
      return Err(StatusNotFound, NotFoundDetail(Name));
    }
    if ClearsRequired(p) {
      return Err(StatusServerError, ServerError);
    }
    AssignmentsPatch(table.rows[id], p);
    table.Assign(id, Assignments(p), SetAttr);
    r := Ok(StatusOk, Record(id, table.rows[id]));
  }

  /** `DELETE /work_order/{id}`: 404 for a missing id, otherwise the row is removed (204). */
  method Delete(table: Table<Row>, id: int) returns (r: Result<()>)
    requires table.Valid()
    modifies table
    ensures table.Valid()
    ensures id !in old(table.rows) ==>
      r == Err(StatusNotFound, "work_order not found") && table.rows == old(table.rows)
    ensures id in old(table.rows) ==> r == Ok(StatusNoContent, ()) && table.rows == old(table.rows) - {id}
  {
    if id !in table.rows {
      return Err(StatusNotFound, NotFoundDetail(Name));
    }
    table.Remove(id);
    r := Ok(StatusNoContent, ());
  }
}
