/** The `parts_mst` service (api/parts_mst/router.py): the replaceable parts of each
    piece of equipment with their rated and used hours. */
module PartsMst {
  import opened Wrappers
  import opened Columns
  import opened Crud

  const Name: string := "parts_mst"

  /** A stored row without its id. */
  datatype Row = Row(equipId: int, partName: string, specLifespanHours: Option<Float>, currentUsageHours: Float, lastReplacementDate: Option<DateTime>)

  /** A create payload; a field with a default value is `None` when the request leaves it
      out. */
  datatype NewRow = NewRow(equipId: int, partName: string, specLifespanHours: Option<Float>, currentUsageHours: Option<Float>, lastReplacementDate: Option<DateTime>)

  /** A partial-update payload: each field is left out, set to null, or set to a value. */
  datatype Changes = Changes(
    equipId: Patch<Option<int>>,
    partName: Patch<Option<string>>,
    specLifespanHours: Patch<Option<Float>>,
    currentUsageHours: Patch<Option<Float>>,
    lastReplacementDate: Patch<Option<DateTime>>)

  /** One `setattr(row, k, v)` of the update loop. */
  datatype Assign =
    | EquipId(equipId: int)
    | PartName(partName: string)
    | SpecLifespanHours(specLifespanHours: Option<Float>)
    | CurrentUsageHours(currentUsageHours: Float)
    | LastReplacementDate(lastReplacementDate: Option<DateTime>)

  function SetAttr(row: Row, a: Assign): Row {
    match a
    case EquipId(v) => row.(equipId := v)
    case PartName(v) => row.(partName := v)
    case SpecLifespanHours(v) => row.(specLifespanHours := v)
    case CurrentUsageHours(v) => row.(currentUsageHours := v)
    case LastReplacementDate(v) => row.(lastReplacementDate := v)
  }

  /** The payload sets to null a column every stored row must have; committing that fails. */
  predicate ClearsRequired(p: Changes) {
    p.equipId == Set(None) || p.partName == Set(None) || p.currentUsageHours == Set(None)
  }

  /** One entry per declared field, in declaration order: the assignment when the request
      set the field, nothing otherwise. */
  function SetFields(p: Changes): seq<seq<Assign>>
    requires !ClearsRequired(p)
  {
    [ if p.equipId.Set? then [EquipId(p.equipId.value.value)] else [],
      if p.partName.Set? then [PartName(p.partName.value.value)] else [],
      if p.specLifespanHours.Set? then [SpecLifespanHours(p.specLifespanHours.value)] else [],
      if p.currentUsageHours.Set? then [CurrentUsageHours(p.currentUsageHours.value.value)] else [],
      if p.lastReplacementDate.Set? then [LastReplacementDate(p.lastReplacementDate.value)] else [] ]
  }

  /** `p.model_dump(exclude_unset=True).items()`: the fields the request set, in declaration
      order. */
  function Assignments(p: Changes): seq<Assign>
    requires !ClearsRequired(p)
  {
    Flatten(SetFields(p))
  }

  /** The row a partial update leaves: each field the request set takes its new value, every
      other field keeps its old one. */
  function Patched(row: Row, p: Changes): Row
    requires !ClearsRequired(p)
  {
    Row(
      p.equipId.Or(Some(row.equipId)).value,
      p.partName.Or(Some(row.partName)).value,
      p.specLifespanHours.Or(row.specLifespanHours),
      p.currentUsageHours.Or(Some(row.currentUsageHours)).value,
      p.lastReplacementDate.Or(row.lastReplacementDate))
  }

  /** Running the assignment loop over the set fields gives the patched row. */
  lemma AssignmentsPatch(row: Row, p: Changes)
    requires !ClearsRequired(p)
    ensures ApplyAll(row, Assignments(p), SetAttr) == Patched(row, p)
  {
    var s := SetFields(p);
    ApplyFlatten(row, s, SetAttr);
    assert s[..5] == s;
    assert StepAll(row, s[..5], SetAttr) == Step(StepAll(row, s[..4], SetAttr), s[4], SetAttr) by {
      assert s[..5][..4] == s[..4];
    }
    assert StepAll(row, s[..4], SetAttr) == Step(StepAll(row, s[..3], SetAttr), s[3], SetAttr) by {
      assert s[..4][..3] == s[..3];
    }
    assert StepAll(row, s[..3], SetAttr) == Step(StepAll(row, s[..2], SetAttr), s[2], SetAttr) by {
      assert s[..3][..2] == s[..2];
    }
    assert StepAll(row, s[..2], SetAttr) == Step(StepAll(row, s[..1], SetAttr), s[1], SetAttr) by {
      assert s[..2][..1] == s[..1];
    }
    assert StepAll(row, s[..1], SetAttr) == Step(row, s[0], SetAttr) by {
      assert s[..1][..0] == [];
    }
  }

  /** The query filters of `GET /parts_mst`; an omitted filter keeps every row. */
  predicate Matches(row: Row, equipId: Option<int>) {
    && (equipId.Some? ==> row.equipId == equipId.value)
  }

  /** The filter of `GET /parts_mst`, as the predicate on rows the listing applies. */
  function Keep(equipId: Option<int>): Row -> bool {
    (row: Row) => Matches(row, equipId)
  }

  /** `GET /parts_mst`: the matching rows in id order, paginated. */
  function List(rows: map<int, Row>, skip: Option<int>, limit: Option<int>,
                equipId: Option<int>)
    : (r: Result<seq<Record<Row>>>)
    ensures r.Ok? ==> RecordsIncreasing(r.value)
    ensures r.Ok? <==> 0 <= skip.GetOr(0) && 0 <= limit.GetOr(DefaultLimit) <= MaxLimit
    ensures limit.GetOr(DefaultLimit) > MaxLimit ==> r == Err(StatusUnprocessable, LimitTooLarge)
    ensures r.Err? && limit.GetOr(DefaultLimit) <= MaxLimit ==> r == Err(StatusServerError, ServerError)
    ensures r.Ok? ==> |r.value| == Min(limit.GetOr(DefaultLimit), Max(0, |Select(rows, Keep(equipId))| - skip.GetOr(0)))
    ensures r.Ok? ==> forall i :: 0 <= i < |r.value| ==>
      skip.GetOr(0) + i < |Select(rows, Keep(equipId))| && r.value[i] == Select(rows, Keep(equipId))[skip.GetOr(0) + i]
    ensures r.Ok? ==> forall x :: x in r.value ==>
      && x.id in rows && x.fields == rows[x.id]
      && (equipId.Some? ==> x.fields.equipId == equipId.value)
  {
    ListBy(rows, Keep(equipId), skip, limit)
  }

  /** `GET /parts_mst/{id}`. */
  function Get(rows: map<int, Row>, id: int): (r: Result<Record<Row>>)
    ensures r.Ok? <==> id in rows
    ensures r.Ok? ==> r == Ok(StatusOk, Record(id, rows[id]))
    ensures r.Err? ==> r == Err(StatusNotFound, "parts_mst not found")
  {
    Crud.Get(rows, id, Name)
  }

  /** The row a create payload stores: omitted fields take their declared defaults. */
  function Stored(p: NewRow): Row {
    Row(p.equipId, p.partName, p.specLifespanHours, p.currentUsageHours.GetOr(Zero), p.lastReplacementDate)
  }

  /** `POST /parts_mst`: stores the payload under a new id and answers 201 with the stored row. */
  method Create(table: Table<Row>, p: NewRow) returns (r: Result<Record<Row>>)
    requires table.Valid()
    modifies table
    ensures table.Valid()
    ensures r.Ok? && r.status == StatusCreated && r.value.fields == Stored(p)
    ensures r.value.id !in old(table.rows) && table.rows == old(table.rows)[r.value.id := Stored(p)]
  {
    var row := Row(p.equipId, p.partName, p.specLifespanHours, p.currentUsageHours.GetOr(Zero), p.lastReplacementDate);
    var id := table.Add(row);
    r := Ok(StatusCreated, Record(id, row));
  }

  /** `PATCH /parts_mst/{id}`: 404 for a missing id; otherwise the set fields are assigned and
      committed, which fails (500, nothing changed) when a required column is set to null. */
  method Update(table: Table<Row>, id: int, p: Changes) returns (r: Result<Record<Row>>)
    requires table.Valid()
    modifies table
    ensures table.Valid()
    ensures id !in old(table.rows) ==>
      r == Err(StatusNotFound, "parts_mst not found") && table.rows == old(table.rows)
    ensures id in old(table.rows) && ClearsRequired(p) ==>
      r == Err(StatusServerError, ServerError) && table.rows == old(table.rows)
    ensures id in old(table.rows) && !ClearsRequired(p) ==>
      && r == Ok(StatusOk, Record(id, Patched(old(table.rows)[id], p)))
      && table.rows == old(table.rows)[id := Patched(old(table.rows)[id], p)]
  {
    if id !in table.rows {
      return Err(StatusNotFound, NotFoundDetail(Name));
    }
    if ClearsRequired(p) {
      return Err(StatusServerError, ServerError);
    }
    AssignmentsPatch(table.rows[id], p);
    table.Assign(id, Assignments(p), SetAttr);
    r := Ok(StatusOk, Record(id, table.rows[id]));
  }

  /** `DELETE /parts_mst/{id}`: 404 for a missing id, otherwise the row is removed (204). */
  method Delete(table: Table<Row>, id: int) returns (r: Result<()>)
    requires table.Valid()
    modifies table
    ensures table.Valid()
    ensures id !in old(table.rows) ==>
      r == Err(StatusNotFound, "parts_mst not found") && table.rows == old(table.rows)
    ensures id in old(table.rows) ==> r == Ok(StatusNoContent, ()) && table.rows == old(table.rows) - {id}
  {
    if id !in table.rows {
      return Err(StatusNotFound, NotFoundDetail(Name));
    }
    table.Remove(id);
    r := Ok(StatusNoContent, ());
  }
}
