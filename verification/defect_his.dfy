/** The `defect_his` service (api/defect_his/router.py): how many pieces of a production
    record failed with which defect code. */
module DefectHis {
  import opened Wrappers
  import opened Columns
  import opened Crud

  const Name: string := "defect_his"

  /** A stored defect record without its id. */
  datatype Row = Row(prodHisId: int, defectCodeId: int, defectQty: int)

  /** A create payload; `defectQty` is `None` when the request leaves it out. */
  datatype NewRow = NewRow(prodHisId: int, defectCodeId: int, defectQty: Option<int>)

  /** The query filters of `GET /defect_his`; an omitted filter keeps every row. */
  predicate Matches(row: Row, prodHisId: Option<int>, defectCodeId: Option<int>) {
    && (prodHisId.Some? ==> row.prodHisId == prodHisId.value)
    && (defectCodeId.Some? ==> row.defectCodeId == defectCodeId.value)
  }

  /** The filter of `GET /defect_his`, as the predicate on rows the listing applies. */
  function Keep(prodHisId: Option<int>, defectCodeId: Option<int>): Row -> bool {
    (row: Row) => Matches(row, prodHisId, defectCodeId)
  }

  /** `GET /defect_his`: the matching rows in id order, paginated. */
  function List(rows: map<int, Row>, skip: Option<int>, limit: Option<int>,
                prodHisId: Option<int>, defectCodeId: Option<int>)
    : (r: Result<seq<Record<Row>>>)
    ensures r.Ok? ==> RecordsIncreasing(r.value)
    ensures r.Ok? <==> 0 <= skip.GetOr(0) && 0 <= limit.GetOr(DefaultLimit) <= MaxLimit
    ensures limit.GetOr(DefaultLimit) > MaxLimit ==> r == Err(StatusUnprocessable, LimitTooLarge)
    ensures r.Err? && limit.GetOr(DefaultLimit) <= MaxLimit ==> r == Err(StatusServerError, ServerError)
    ensures r.Ok? ==> |r.value| == Min(limit.GetOr(DefaultLimit), Max(0, |Select(rows, Keep(prodHisId, defectCodeId))| - skip.GetOr(0)))
    ensures r.Ok? ==> forall i :: 0 <= i < |r.value| ==>
      skip.GetOr(0) + i < |Select(rows, Keep(prodHisId, defectCodeId))| && r.value[i] == Select(rows, Keep(prodHisId, defectCodeId))[skip.GetOr(0) + i]
    ensures r.Ok? ==> forall x :: x in r.value ==>
      && x.id in rows && x.fields == rows[x.id]
      && (prodHisId.Some? ==> x.fields.prodHisId == prodHisId.value)
      && (defectCodeId.Some? ==> x.fields.defectCodeId == defectCodeId.value)
  {
    ListBy(rows, Keep(prodHisId, defectCodeId), skip, limit)
  }

  /** `GET /defect_his/{id}`. */
  function Get(rows: map<int, Row>, id: int): (r: Result<Record<Row>>)
    ensures r.Ok? <==> id in rows
    ensures r.Ok? ==> r == Ok(StatusOk, Record(id, rows[id]))
    ensures r.Err? ==> r == Err(StatusNotFound, "defect_his not found")
  {
    Crud.Get(rows, id, Name)
  }

  /** The row a create payload stores: an omitted field takes its declared default. */
  function Stored(p: NewRow): Row {
    Row(p.prodHisId, p.defectCodeId, p.defectQty.GetOr(0))
  }

  /** `POST /defect_his`: stores the payload under a new id and answers 201 with the stored row. */
  method Create(table: Table<Row>, p: NewRow) returns (r: Result<Record<Row>>)
    requires table.Valid()
    modifies table
    ensures table.Valid()
    ensures r.Ok? && r.status == StatusCreated && r.value.fields == Stored(p)
    ensures r.value.id !in old(table.rows) && table.rows == old(table.rows)[r.value.id := Stored(p)]
  {
    var row := Row(p.prodHisId, p.defectCodeId, p.defectQty.GetOr(0));
    var id := table.Add(row);
    r := Ok(StatusCreated, Record(id, row));
  }
}
