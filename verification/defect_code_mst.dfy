/** The `defect_code_mst` service (api/defect_code_mst/router.py): the defect codes with their
    reason names and categories. */
module DefectCodeMst {
  import opened Wrappers
  import opened Columns
  import opened Crud

  const Name: string := "defect_code_mst"

  /** A stored row without its id. */
  datatype Row = Row(defectCode: string, reasonName: Option<string>, category: Option<string>)

  /** A partial-update payload: each field is left out, set to null, or set to a value. */
  datatype Changes = Changes(
    defectCode: Patch<Option<string>>,
    reasonName: Patch<Option<string>>,
    category: Patch<Option<string>>)

  /** One `setattr(row, k, v)` of the update loop. */
  datatype Assign =
    | DefectCode(defectCode: string)
    | ReasonName(reasonName: Option<string>)
    | Category(category: Option<string>)

  function SetAttr(row: Row, a: Assign): Row {
    match a
    case DefectCode(v) => row.(defectCode := v)
    case ReasonName(v) => row.(reasonName := v)
    case Category(v) => row.(category := v)
  }

  /** The payload sets to null a column every stored row must have; committing that fails. */
  predicate ClearsRequired(p: Changes) {
    p.defectCode == Set(None)
  }

  /** One entry per declared field, in declaration order: the assignment when the request
      set the field, nothing otherwise. */
  function SetFields(p: Changes): seq<seq<Assign>>
    requires !ClearsRequired(p)
  {
    [ if p.defectCode.Set? then [DefectCode(p.defectCode.value.value)] else [],
      if p.reasonName.Set? then [ReasonName(p.reasonName.value)] else [],
      if p.category.Set? then [Category(p.category.value)] else [] ]
  }

  /** `p.model_dump(exclude_unset=True).items()`: the fields the request set, in declaration
      order. */
  function Assignments(p: Changes): seq<Assign>
    requires !ClearsRequired(p)
  {
    Flatten(SetFields(p))
  }

  /** The row a partial update leaves: each field the request set takes its new value, every
      other field keeps its old one. */
  function Patched(row: Row, p: Changes): Row
    requires !ClearsRequired(p)
  {
    Row(
      p.defectCode.Or(Some(row.defectCode)).value,
      p.reasonName.Or(row.reasonName),
      p.category.Or(row.category))
  }

  /** Running the assignment loop over the set fields gives the patched row. */
  lemma AssignmentsPatch(row: Row, p: Changes)
    requires !ClearsRequired(p)
    ensures ApplyAll(row, Assignments(p), SetAttr) == Patched(row, p)
  {
    var s := SetFields(p);
    ApplyFlatten(row, s, SetAttr);
    assert s[..3] == s;
    assert StepAll(row, s[..3], SetAttr) == Step(StepAll(row, s[..2], SetAttr), s[2], SetAttr) by {
      assert s[..3][..2] == s[..2];
    }
    assert StepAll(row, s[..2], SetAttr) == Step(StepAll(row, s[..1], SetAttr), s[1], SetAttr) by {
      assert s[..2][..1] == s[..1];
    }
    assert StepAll(row, s[..1], SetAttr) == Step(row, s[0], SetAttr) by {
      assert s[..1][..0] == [];
    }
  }

  /** The query filters of `GET /defect_code_mst`; an omitted filter keeps every row; a row whose category is null matches no category. */
  predicate Matches(row: Row, category: Option<string>) {
    && (category.Some? ==> row.category == Some(category.value))
  }

  /** The filter of `GET /defect_code_mst`, as the predicate on rows the listing applies. */
  function Keep(category: Option<string>): Row -> bool {
    (row: Row) => Matches(row, category)
  }

  /** `GET /defect_code_mst`: the matching rows in id order, paginated. */
  function List(rows: map<int, Row>, skip: Option<int>, limit: Option<int>,
                category: Option<string>)
    : (r: Result<seq<Record<Row>>>)
    ensures r.Ok? ==> RecordsIncreasing(r.value)
    ensures r.Ok? <==> 0 <= skip.GetOr(0) && 0 <= limit.GetOr(DefaultLimit) <= MaxLimit
    ensures limit.GetOr(DefaultLimit) > MaxLimit ==> r == Err(StatusUnprocessable, LimitTooLarge)
    ensures r.Err? && limit.GetOr(DefaultLimit) <= MaxLimit ==> r == Err(StatusServerError, ServerError)
    ensures r.Ok? ==> |r.value| == Min(limit.GetOr(DefaultLimit), Max(0, |Select(rows, Keep(category))| - skip.GetOr(0)))
    ensures r.Ok? ==> forall i :: 0 <= i < |r.value| ==>
      skip.GetOr(0) + i < |Select(rows, Keep(category))| && r.value[i] == Select(rows, Keep(category))[skip.GetOr(0) + i]
    ensures r.Ok? ==> forall x :: x in r.value ==>
      && x.id in rows && x.fields == rows[x.id]
      && (category.Some? ==> x.fields.category == Some(category.value))
  {
    ListBy(rows, Keep(category), skip, limit)
  }

  /** `GET /defect_code_mst/{id}`. */
  function Get(rows: map<int, Row>, id: int): (r: Result<Record<Row>>)
    ensures r.Ok? <==> id in rows
    ensures r.Ok? ==> r == Ok(StatusOk, Record(id, rows[id]))
    ensures r.Err? ==> r == Err(StatusNotFound, "defect_code_mst not found")
  {
    Crud.Get(rows, id, Name)
  }

  /** `POST /defect_code_mst`: stores the payload under a new id and answers 201 with the stored row. */
  method Create(table: Table<Row>, p: Row) returns (r: Result<Record<Row>>)
    requires table.Valid()
    modifies table
    ensures table.Valid()
    ensures r.Ok? && r.status == StatusCreated && r.value.fields == p
    ensures r.value.id !in old(table.rows) && table.rows == old(table.rows)[r.value.id := p]
  {
    var row := Row(p.defectCode, p.reasonName, p.category);
    var id := table.Add(row);
    r := Ok(StatusCreated, Record(id, row));
  }

  /** `PATCH /defect_code_mst/{id}`: 404 for a missing id; otherwise the set fields are assigned and
      committed, which fails (500, nothing changed) when a required column is set to null. */
  method Update(table: Table<Row>, id: int, p: Changes) returns (r: Result<Record<Row>>)
    requires table.Valid()
    modifies table
    ensures table.Valid()
    ensures id !in old(table.rows) ==>
      r == Err(StatusNotFound, "defect_code_mst not found") && table.rows == old(table.rows)
    ensures id in old(table.rows) && ClearsRequired(p) ==>
      r == Err(StatusServerError, ServerError) && table.rows == old(table.rows)
    ensures id in old(table.rows) && !ClearsRequired(p) ==>
      && r == Ok(StatusOk, Record(id, Patched(old(table.rows)[id], p)))
      && table.rows == old(table.rows)[id := Patched(old(table.rows)[id], p)]
  {
    if id !in table.rows {
      return Err(StatusNotFound, NotFoundDetail(Name));
    }
    if ClearsRequired(p) {
      return Err(StatusServerError, ServerError);
    }
    AssignmentsPatch(table.rows[id], p);
    table.Assign(id, Assignments(p), SetAttr);
    r := Ok(StatusOk, Record(id, table.rows[id]));
  }

  /** `DELETE /defect_code_mst/{id}`: 404 for a missing id, otherwise the row is removed (204). */
  method Delete(table: Table<Row>, id: int) returns (r: Result<()>)
    requires table.Valid()
    modifies table
    ensures table.Valid()
    ensures id !in old(table.rows) ==>
      r == Err(StatusNotFound, "defect_code_mst not found") && table.rows == old(table.rows)
    ensures id in old(table.rows) ==> r == Ok(StatusNoContent, ()) && table.rows == old(table.rows) - {id}
  {
    if id !in table.rows {
      return Err(StatusNotFound, NotFoundDetail(Name));
    }
    table.Remove(id);
    r := Ok(StatusNoContent, ());
  }
}
