/** The `maint_his` service (api/maint_his/router.py): the maintenance work done on each
    piece of equipment, read only. */
module MaintHis {
  import opened Wrappers
  import opened Columns
  import opened Crud

  const Name: string := "maint_his"

  /** A stored maintenance record without its id: the equipment it belongs to (possibly none) and
      the other columns, whose schema is not part of this model. */
  datatype Row = Row(equipId: Option<int>, other: Other)

  /** The query filters of `GET /maint_his`; an omitted filter keeps every row; a row with no equipment matches no equipment. */
  predicate Matches(row: Row, equipId: Option<int>) {
    && (equipId.Some? ==> row.equipId == Some(equipId.value))
  }

  /** The filter of `GET /maint_his`, as the predicate on rows the listing applies. */
  function Keep(equipId: Option<int>): Row -> bool {
    (row: Row) => Matches(row, equipId)
  }

  /** `GET /maint_his`: the matching rows in id order, paginated. */
  function List(rows: map<int, Row>, skip: Option<int>, limit: Option<int>,
                equipId: Option<int>)
    : (r: Result<seq<Record<Row>>>)
    ensures r.Ok? ==> RecordsIncreasing(r.value)
    ensures r.Ok? <==> 0 <= skip.GetOr(0) && 0 <= limit.GetOr(DefaultLimit) <= MaxLimit
    ensures limit.GetOr(DefaultLimit) > MaxLimit ==> r == Err(StatusUnprocessable, LimitTooLarge)
    ensures r.Err? && limit.GetOr(DefaultLimit) <= MaxLimit ==> r == Err(StatusServerError, ServerError)
    ensures r.Ok? ==> |r.value| == Min(limit.GetOr(DefaultLimit), Max(0, |Select(rows, Keep(equipId))| - skip.GetOr(0)))
    ensures r.Ok? ==> forall i :: 0 <= i < |r.value| ==>
      skip.GetOr(0) + i < |Select(rows, Keep(equipId))| && r.value[i] == Select(rows, Keep(equipId))[skip.GetOr(0) + i]
    ensures r.Ok? ==> forall x :: x in r.value ==>
      && x.id in rows && x.fields == rows[x.id]
      && (equipId.Some? ==> x.fields.equipId == Some(equipId.value))
  {
    ListBy(rows, Keep(equipId), skip, limit)
  }

  /** `GET /maint_his/{id}`. */
  function Get(rows: map<int, Row>, id: int): (r: Result<Record<Row>>)
    ensures r.Ok? <==> id in rows
    ensures r.Ok? ==> r == Ok(StatusOk, Record(id, rows[id]))
    ensures r.Err? ==> r == Err(StatusNotFound, "maint_his not found")
  {
    Crud.Get(rows, id, Name)
  }
}
