/** The `status_his` service (api/status_his/router.py): the run states each piece of equipment
    went through, read only, listed in chronological order. */
module StatusHis {
  import opened Wrappers
  import opened Columns
  import opened Crud

  const Name: string := "status_his"

  /** A stored state change without its id: the equipment it belongs to (possibly none), when the
      state began, and the other columns, whose schema is not part of this model. */
  datatype Row = Row(equipId: Option<int>, startTime: DateTime, other: Other)

  /** `ORDER BY start_time`, rows that began at the same time taken in id order. */
  predicate Before(x: Record<Row>, y: Record<Row>) {
    x.fields.startTime < y.fields.startTime || (x.fields.startTime == y.fields.startTime && x.id < y.id)
  }

  predicate Chronological(s: seq<Record<Row>>) {
    SortedBy(s, Before)
  }

  /** Puts `x` into a chronological sequence of other rows, before the first row it precedes. */
  function Insert(x: Record<Row>, s: seq<Record<Row>>): (r: seq<Record<Row>>)
    requires Chronological(s)
    requires forall y :: y in s ==> y.id != x.id
    ensures multiset(r) == multiset(s) + multiset{x}
    ensures Chronological(r)
  {
    if s == [] then [x]
    else if Before(x, s[0]) then
      InsertFirst(x, s);
      [x] + s
    else
      var rest := Insert(x, s[1..]);
      InsertLater(x, s, rest);
      [s[0]] + rest
  }

  lemma InsertFirst(x: Record<Row>, s: seq<Record<Row>>)
    requires Chronological(s) && s != [] && Before(x, s[0])
    ensures Chronological([x] + s)
  {
    forall j | 0 < j < |s|
      ensures Before(x, s[j])
    {
      assert Before(s[0], s[j]);
    }
    SortedCons(x, s, Before);
  }

  lemma InsertLater(x: Record<Row>, s: seq<Record<Row>>, rest: seq<Record<Row>>)
    requires Chronological(s) && s != [] && !Before(x, s[0]) && x.id != s[0].id
    requires Chronological(rest) && multiset(rest) == multiset(s[1..]) + multiset{x}
    ensures Chronological([s[0]] + rest)
    ensures multiset([s[0]] + rest) == multiset(s) + multiset{x}
  {
    assert s == [s[0]] + s[1..];
    forall j | 0 <= j < |rest|
      ensures Before(s[0], rest[j])
    {
      var y := rest[j];
      assert y in multiset(rest);
      if y != x {
        assert y in multiset(s[1..]);
        var k :| 0 <= k < |s[1..]| && s[1..][k] == y;
        assert s[k + 1] == y;
      }
    }
    SortedCons(s[0], rest, Before);
  }

  /** The rows after the first of a sequence in increasing id order all have larger ids. */
  lemma LaterIds(s: seq<Record<Row>>, rest: seq<Record<Row>>)
    requires RecordsIncreasing(s) && s != [] && multiset(rest) == multiset(s[1..])
    ensures forall y :: y in rest ==> y.id != s[0].id
  {
    forall y | y in rest
      ensures y.id != s[0].id
    {
      assert y in multiset(s[1..]);
      var j :| 0 <= j < |s[1..]| && s[1..][j] == y;
      assert s[j + 1] == y;
    }
  }

  /** The rows of `s`, which come in increasing id order, sorted chronologically. */
  function ByStartTime(s: seq<Record<Row>>): (r: seq<Record<Row>>)
    requires RecordsIncreasing(s)
    ensures multiset(r) == multiset(s)
    ensures Chronological(r)
  {
    if s == [] then []
    else
      var rest := ByStartTime(s[1..]);
      LaterIds(s, rest);
      assert s == [s[0]] + s[1..];
      Insert(s[0], rest)
  }

  /** The query filters of `GET /status_his`: the equipment, and inclusive bounds on when the
      state began; an omitted filter keeps every row, and a row with no equipment matches no
      equipment. */
  predicate Matches(row: Row, equipId: Option<int>, startTimeFrom: Option<DateTime>, startTimeTo: Option<DateTime>) {
    && (equipId.Some? ==> row.equipId == Some(equipId.value))
    && (startTimeFrom.Some? ==> startTimeFrom.value <= row.startTime)
    && (startTimeTo.Some? ==> row.startTime <= startTimeTo.value)
  }

  /** The matching rows in chronological order, before pagination. */
  function Ordered(rows: map<int, Row>, equipId: Option<int>, startTimeFrom: Option<DateTime>,
                   startTimeTo: Option<DateTime>): seq<Record<Row>>
  {
    ByStartTime(Select(rows, (row: Row) => Matches(row, equipId, startTimeFrom, startTimeTo)))
  }

  /** `GET /status_his`: the matching rows in chronological order, paginated. */
  function List(rows: map<int, Row>, skip: Option<int>, limit: Option<int>,
                equipId: Option<int>, startTimeFrom: Option<DateTime>, startTimeTo: Option<DateTime>)
    : (r: Result<seq<Record<Row>>>)
    ensures r.Ok? ==> Chronological(r.value)
    ensures r.Ok? <==> 0 <= skip.GetOr(0) && 0 <= limit.GetOr(DefaultLimit) <= MaxLimit
    ensures limit.GetOr(DefaultLimit) > MaxLimit ==> r == Err(StatusUnprocessable, LimitTooLarge)
    ensures r.Err? && limit.GetOr(DefaultLimit) <= MaxLimit ==> r == Err(StatusServerError, ServerError)
    ensures r.Ok? ==> |r.value| == Min(limit.GetOr(DefaultLimit), Max(0, |Ordered(rows, equipId, startTimeFrom, startTimeTo)| - skip.GetOr(0)))
    ensures r.Ok? ==> forall i :: 0 <= i < |r.value| ==>
      skip.GetOr(0) + i < |Ordered(rows, equipId, startTimeFrom, startTimeTo)| && r.value[i] == Ordered(rows, equipId, startTimeFrom, startTimeTo)[skip.GetOr(0) + i]
    ensures r.Ok? ==> forall x :: x in r.value ==>
      && x.id in rows && x.fields == rows[x.id]
      && (equipId.Some? ==> x.fields.equipId == Some(equipId.value))
      && (startTimeFrom.Some? ==> startTimeFrom.value <= x.fields.startTime)
      && (startTimeTo.Some? ==> x.fields.startTime <= startTimeTo.value)
  {
    ListPage(rows, skip, limit, equipId, startTimeFrom, startTimeTo);
    ListPageRows(rows, skip, limit, equipId, startTimeFrom, startTimeTo);
    Paginate(Ordered(rows, equipId, startTimeFrom, startTimeTo), skip, limit)
  }

  /** The page of the ordered rows is still in chronological order and is the window of them
      that starts at `skip`. */
  lemma ListPage(rows: map<int, Row>, skip: Option<int>, limit: Option<int>,
                 equipId: Option<int>, startTimeFrom: Option<DateTime>, startTimeTo: Option<DateTime>)
    ensures var r := Paginate(Ordered(rows, equipId, startTimeFrom, startTimeTo), skip, limit);
      r.Ok? ==> Chronological(r.value)
    ensures var all := Ordered(rows, equipId, startTimeFrom, startTimeTo); var r := Paginate(all, skip, limit);
      r.Ok? ==> forall i :: 0 <= i < |r.value| ==> skip.GetOr(0) + i < |all| && r.value[i] == all[skip.GetOr(0) + i]
  {
    var all := Ordered(rows, equipId, startTimeFrom, startTimeTo);
    PageSorted(all, skip, limit, Before);
    PageWindow(all, skip, limit);
  }

  /** The page of the ordered rows holds matching rows of the table. */
  lemma ListPageRows(rows: map<int, Row>, skip: Option<int>, limit: Option<int>,
                     equipId: Option<int>, startTimeFrom: Option<DateTime>, startTimeTo: Option<DateTime>)
    ensures var r := Paginate(Ordered(rows, equipId, startTimeFrom, startTimeTo), skip, limit);
      r.Ok? ==> forall x :: x in r.value ==>
        x.id in rows && x.fields == rows[x.id] && Matches(x.fields, equipId, startTimeFrom, startTimeTo)
  {
    var all := Ordered(rows, equipId, startTimeFrom, startTimeTo);
    var r := Paginate(all, skip, limit);
    PageSorted(all, skip, limit, Before);
    OrderedRows(rows, equipId, startTimeFrom, startTimeTo);
    if r.Ok? {
      forall x | x in r.value
        ensures x in multiset(all)
      {
        var i :| 0 <= i < |r.value| && r.value[i] == x;
      }
    }
  }

  /** The ordered rows are exactly the matching rows of the table. */
  lemma OrderedRows(rows: map<int, Row>, equipId: Option<int>, startTimeFrom: Option<DateTime>,
                    startTimeTo: Option<DateTime>)
    ensures var all := Ordered(rows, equipId, startTimeFrom, startTimeTo);
      forall x :: x in multiset(all) ==>
        && x.id in rows && x.fields == rows[x.id]
        && Matches(x.fields, equipId, startTimeFrom, startTimeTo)
  {
    var keep := (row: Row) => Matches(row, equipId, startTimeFrom, startTimeTo);
    var all := Ordered(rows, equipId, startTimeFrom, startTimeTo);
    forall x: Record<Row> | x in multiset(all)
      ensures x.id in rows && x.fields == rows[x.id] && keep(x.fields)
    {
      assert x in Select(rows, keep);
    }
  }

  /** The order is fully determined: any chronological arrangement of exactly the matching rows
      is the one `GET /status_his` pages through. */
  lemma OrderedUnique(rows: map<int, Row>, equipId: Option<int>, startTimeFrom: Option<DateTime>,
                      startTimeTo: Option<DateTime>, s: seq<Record<Row>>)
    requires Chronological(s)
    requires forall x :: x in s ==>
      x.id in rows && x.fields == rows[x.id] && Matches(x.fields, equipId, startTimeFrom, startTimeTo)
    requires forall k :: k in rows && Matches(rows[k], equipId, startTimeFrom, startTimeTo) ==>
      Record(k, rows[k]) in s
    ensures s == Ordered(rows, equipId, startTimeFrom, startTimeTo)
  {
    var keep := (row: Row) => Matches(row, equipId, startTimeFrom, startTimeTo);
    var selected := Select(rows, keep);
    var t := Ordered(rows, equipId, startTimeFrom, startTimeTo);
    forall x | x in t
      ensures x in s
    {
      assert x in multiset(selected);
      assert Record(x.id, rows[x.id]) == x;
    }
    forall x | x in s
      ensures x in t
    {
      assert Record(x.id, rows[x.id]) == x;
      assert x in selected;
      assert x in multiset(t);
    }
    SortedUnique(s, t, Before);
  }

  /** `GET /status_his/{id}`. */
  function Get(rows: map<int, Row>, id: int): (r: Result<Record<Row>>)
    ensures r.Ok? <==> id in rows
    ensures r.Ok? ==> r == Ok(StatusOk, Record(id, rows[id]))
    ensures r.Err? ==> r == Err(StatusNotFound, "status_his not found")
  {
    Crud.Get(rows, id, Name)
  }
}
