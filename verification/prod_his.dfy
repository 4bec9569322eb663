/** The `prod_his` service (api/prod_his/router.py): the production counts of each
    piece of equipment over time, read only. */
module ProdHis {
  import opened Wrappers
  import opened Columns
  import opened Crud

  const Name: string := "prod_his"

  /** A stored production record without its id. */
  datatype Row = Row(time: DateTime, equipId: int, workOrderId: Option<int>, totalCnt: int, goodCnt: int, defectCnt: int)

  /** The query filters of `GET /prod_his`; an omitted filter keeps every row; a row with no work order matches no work order. */
  predicate Matches(row: Row, equipId: Option<int>, workOrderId: Option<int>) {
    && (equipId.Some? ==> row.equipId == equipId.value)
    && (workOrderId.Some? ==> row.workOrderId == Some(workOrderId.value))
  }

  /** The filter of `GET /prod_his`, as the predicate on rows the listing applies. */
  function Keep(equipId: Option<int>, workOrderId: Option<int>): Row -> bool {
    (row: Row) => Matches(row, equipId, workOrderId)
  }

  /** `GET /prod_his`: the matching rows in id order, paginated. */
  function List(rows: map<int, Row>, skip: Option<int>, limit: Option<int>,
                equipId: Option<int>, workOrderId: Option<int>)
    : (r: Result<seq<Record<Row>>>)
    ensures r.Ok? ==> RecordsIncreasing(r.value)
    ensures r.Ok? <==> 0 <= skip.GetOr(0) && 0 <= limit.GetOr(DefaultLimit) <= MaxLimit
    ensures limit.GetOr(DefaultLimit) > MaxLimit ==> r == Err(StatusUnprocessable, LimitTooLarge)
    ensures r.Err? && limit.GetOr(DefaultLimit) <= MaxLimit ==> r == Err(StatusServerError, ServerError)
    ensures r.Ok? ==> |r.value| == Min(limit.GetOr(DefaultLimit), Max(0, |Select(rows, Keep(equipId, workOrderId))| - skip.GetOr(0)))
    ensures r.Ok? ==> forall i :: 0 <= i < |r.value| ==>
      skip.GetOr(0) + i < |Select(rows, Keep(equipId, workOrderId))| && r.value[i] == Select(rows, Keep(equipId, workOrderId))[skip.GetOr(0) + i]
    ensures r.Ok? ==> forall x :: x in r.value ==>
      && x.id in rows && x.fields == rows[x.id]
      && (equipId.Some? ==> x.fields.equipId == equipId.value)
      && (workOrderId.Some? ==> x.fields.workOrderId == Some(workOrderId.value))
  {
    ListBy(rows, Keep(equipId, workOrderId), skip, limit)
  }

  /** `GET /prod_his/{id}`. */
  function Get(rows: map<int, Row>, id: int): (r: Result<Record<Row>>)
    ensures r.Ok? <==> id in rows
    ensures r.Ok? ==> r == Ok(StatusOk, Record(id, rows[id]))
    ensures r.Err? ==> r == Err(StatusNotFound, "prod_his not found")
  {
    Crud.Get(rows, id, Name)
  }
}
