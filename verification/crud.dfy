/** What every table service of the system shares: a table of rows keyed by an integer id that
    the database assigns, the listing pipeline (filter, order, skip, take), the lookup that
    answers 404 for a missing id, and the partial update that assigns one field at a time.
    The database session is modelled as the table object itself. */
module Crud {
  import opened Wrappers

  /** A row as the services return it: the id and the other columns. */
  datatype Record<F> = Record(id: int, fields: F)

  /** The answer of a handler: a status code and a body, or an error status with its detail. */
  datatype Result<T> = Ok(status: nat, value: T) | Err(status: nat, detail: string)

  const StatusOk: nat := 200
  const StatusCreated: nat := 201
  const StatusNoContent: nat := 204
  const StatusNotFound: nat := 404
  const StatusUnprocessable: nat := 422
  const StatusServerError: nat := 500

  /** The `limit` query parameter: 100 when omitted, and at most 500. */
  const DefaultLimit: int := 100
  const MaxLimit: int := 500

  const LimitTooLarge: string := "limit: Input should be less than or equal to 500"
  const ServerError: string := "Internal Server Error"

  /** The 404 detail of a service, `"<table> not found"`. */
  function NotFoundDetail(table: string): string {
    table + " not found"
  }

  predicate Increasing(ids: seq<int>) {
    forall i, j :: 0 <= i < j < |ids| ==> ids[i] < ids[j]
  }

  /** A non-empty finite set of ids has a least element. */
  lemma {:induction false} LeastExists(s: set<int>)
    requires s != {}
    ensures exists k :: k in s && forall x :: x in s ==> k <= x
    decreases |s|
  {
    if forall x :: x !in s {
      assert false;
    }
    var y :| y in s;
    var rest := s - {y};
    if rest != {} {
      LeastExists(rest);
      var k :| k in rest && forall x :: x in rest ==> k <= x;
      var m := if y < k then y else k;
      forall x | x in s
        ensures m <= x
      {
        if x != y {
          assert x in rest;
        }
      }
      assert m in s;
    } else {
      forall x | x in s
        ensures y <= x
      {
        assert x == y || x in rest;
      }
    }
  }

  function Least(s: set<int>): (k: int)
    requires s != {}
    ensures k in s && forall x :: x in s ==> k <= x
  {
    LeastExists(s);
    var k :| k in s && forall x :: x in s ==> k <= x;
    k
  }

  /** The ids of a table in ascending order: `ORDER BY id`. */
  function SortedIds(s: set<int>): (ids: seq<int>)
    ensures forall k :: k in ids <==> k in s
    ensures |ids| == |s|
    ensures Increasing(ids)
    decreases |s|
  {
    if s == {} then []
    else
      var k := Least(s);
      var rest := SortedIds(s - {k});
      SortedIdsCons(s, k, rest);
      [k] + rest
  }

  /** The least id followed by the others in ascending order lists every id once, ascending. */
  lemma SortedIdsCons(s: set<int>, k: int, rest: seq<int>)
    requires k in s && forall x :: x in s ==> k <= x
    requires forall x :: x in rest <==> x in s - {k}
    requires |rest| == |s - {k}| && Increasing(rest)
    ensures forall x :: x in [k] + rest <==> x in s
    ensures |[k] + rest| == |s|
    ensures Increasing([k] + rest)
  {
    var r := [k] + rest;
    forall i, j | 0 <= i < j < |r|
      ensures r[i] < r[j]
    {
      assert r[j] == rest[j - 1];
      assert r[j] in s - {k};
      if i > 0 {
        assert r[i] == rest[i - 1];
      }
    }
  }

  /** The rows with the given ids, in that order, that satisfy the filter. */
  function Collect<F>(rows: map<int, F>, ids: seq<int>, keep: F -> bool): (r: seq<Record<F>>)
    requires forall k :: k in ids ==> k in rows
    ensures forall x :: x in r ==> x.id in ids && x.id in rows && x.fields == rows[x.id] && keep(x.fields)
    ensures forall k :: k in ids && keep(rows[k]) ==> Record(k, rows[k]) in r
  {
    if ids == [] then []
    else
      var first := ids[0];
      assert first in ids;
      var rest := Collect(rows, ids[1..], keep);
      if keep(rows[first]) then [Record(first, rows[first])] + rest else rest
  }

  /** Collecting along increasing ids gives rows in increasing id order. */
  lemma {:induction false} CollectIncreasing<F>(rows: map<int, F>, ids: seq<int>, keep: F -> bool)
    requires forall k :: k in ids ==> k in rows
    requires Increasing(ids)
    ensures RecordsIncreasing(Collect(rows, ids, keep))
  {
    if ids != [] {
      var first := ids[0];
      assert first in ids;
      var rest := Collect(rows, ids[1..], keep);
      CollectIncreasing(rows, ids[1..], keep);
      if keep(rows[first]) {
        forall x | x in rest
          ensures first < x.id
        {
          var k := x.id;
          assert k in ids[1..];
        }
        RecordsIncreasingCons(Record(first, rows[first]), rest);
      }
    }
  }

  /** Rows in increasing id order, preceded by a row of a smaller id, are in increasing id
      order. */
  lemma RecordsIncreasingCons<F>(x: Record<F>, rest: seq<Record<F>>)
    requires RecordsIncreasing(rest)
    requires forall y :: y in rest ==> x.id < y.id
    ensures RecordsIncreasing([x] + rest)
  {
    var r := [x] + rest;
    forall i, j | 0 <= i < j < |r|
      ensures r[i].id < r[j].id
    {
      assert r[j] == rest[j - 1];
      if i > 0 {
        assert r[i] == rest[i - 1];
      } else {
        assert r[j] in rest;
      }
    }
  }

  /** Rows in strictly increasing id order. */
  predicate RecordsIncreasing<F>(s: seq<Record<F>>) {
    forall i, j :: 0 <= i < j < |s| ==> s[i].id < s[j].id
  }

  /** The rows of the table that satisfy the filter, in ascending id order. */
  function Select<F>(rows: map<int, F>, keep: F -> bool): (r: seq<Record<F>>)
    ensures forall x :: x in r ==> x.id in rows && x.fields == rows[x.id] && keep(x.fields)
    ensures forall k :: k in rows && keep(rows[k]) ==> Record(k, rows[k]) in r
    ensures RecordsIncreasing(r)
  {
    CollectIncreasing(rows, SortedIds(rows.Keys), keep);
    Collect(rows, SortedIds(rows.Keys), keep)
  }

  /** Each element of `s` comes strictly before every later one. */
  predicate SortedBy<T>(s: seq<T>, less: (T, T) -> bool) {
    forall i, j :: 0 <= i < j < |s| ==> less(s[i], s[j])
  }

  /** `less` never holds both ways (so never of an element and itself). */
  ghost predicate Asymmetric<T(!new)>(less: (T, T) -> bool) {
    forall x, y :: less(x, y) ==> !less(y, x)
  }

  /** Two sequences sorted by the same strict order and holding the same elements are the same
      sequence. */
  lemma {:induction false} SortedUnique<T(!new)>(a: seq<T>, b: seq<T>, less: (T, T) -> bool)
    requires Asymmetric(less) && SortedBy(a, less) && SortedBy(b, less)
    requires forall x :: x in a <==> x in b
    ensures a == b
  {
    if a != [] {
      assert a[0] in b;
    }
    if b != [] {
      assert b[0] in a;
    }
    if a != [] && b != [] {
      var x, y := a[0], b[0];
      assert x in b && y in a;
      assert a[0] == b[0] by {
        var i :| 0 <= i < |b| && b[i] == x;
        var j :| 0 <= j < |a| && a[j] == y;
        assert i == 0 || less(y, x);
        assert j == 0 || less(x, y);
      }
      forall z | z in a[1..]
        ensures z in b[1..]
      {
        var i :| 0 <= i < |a[1..]| && a[1..][i] == z;
        assert a[i + 1] == z && less(x, z);
        assert z in b;
        assert b == [y] + b[1..];
      }
      forall z | z in b[1..]
        ensures z in a[1..]
      {
        var j :| 0 <= j < |b[1..]| && b[1..][j] == z;
        assert b[j + 1] == z && less(y, z);
        assert z in a;
        assert a == [x] + a[1..];
      }
      SortedUnique(a[1..], b[1..], less);
      assert a == [a[0]] + a[1..] && b == [b[0]] + b[1..];
    }
  }

  /** An element before every element of a sorted sequence starts a sorted sequence. */
  lemma SortedCons<T>(x: T, s: seq<T>, less: (T, T) -> bool)
    requires SortedBy(s, less)
    requires forall j :: 0 <= j < |s| ==> less(x, s[j])
    ensures SortedBy([x] + s, less)
  {
    var r := [x] + s;
    forall i, j | 0 <= i < j < |r|
      ensures less(r[i], r[j])
    {
      assert r[j] == s[j - 1];
      if i > 0 {
        assert r[i] == s[i - 1];
      }
    }
  }

  /** Without a skip, a limit no smaller than the sequence takes all of it. */
  lemma PaginateAll<T>(all: seq<T>, limit: Option<int>)
    requires 0 <= limit.GetOr(DefaultLimit) <= MaxLimit && |all| <= limit.GetOr(DefaultLimit)
    ensures Paginate(all, None, limit) == Ok(StatusOk, all)
  {
    if all != [] {
      assert Min(limit.GetOr(DefaultLimit), |all| - 0) == |all|;
      assert all[0..][..|all|] == all;
    }
  }

  /** A page is a contiguous slice of the ordered sequence. */
  lemma PageSlice<T>(all: seq<T>, skip: Option<int>, limit: Option<int>) returns (lo: nat, hi: nat)
    ensures Paginate(all, skip, limit).Ok? ==> lo <= hi <= |all| && Paginate(all, skip, limit).value == all[lo..hi]
    ensures Paginate(all, skip, limit).Ok? && hi > lo ==> lo == skip.GetOr(0)
  {
    var s, l := skip.GetOr(0), limit.GetOr(DefaultLimit);
    lo, hi := 0, 0;
    if 0 <= s < |all| && 0 <= l {
      lo, hi := s, s + Min(l, |all| - s);
      assert all[s..][..hi - s] == all[lo..hi];
    }
  }

  /** Element `i` of a page is element `skip + i` of the ordered sequence. */
  lemma PageWindow<T>(all: seq<T>, skip: Option<int>, limit: Option<int>)
    ensures var r := Paginate(all, skip, limit);
      r.Ok? ==> forall i :: 0 <= i < |r.value| ==> skip.GetOr(0) + i < |all| && r.value[i] == all[skip.GetOr(0) + i]
  {
    var lo, hi := PageSlice(all, skip, limit);
  }

  /** A page of a sorted sequence holds elements of that sequence, still sorted. */
  lemma PageSorted<T>(all: seq<T>, skip: Option<int>, limit: Option<int>, less: (T, T) -> bool)
    requires SortedBy(all, less)
    ensures var r := Paginate(all, skip, limit);
      r.Ok? ==> SortedBy(r.value, less) && forall i :: 0 <= i < |r.value| ==> r.value[i] in multiset(all)
  {
    var r := Paginate(all, skip, limit);
    var lo, hi := PageSlice(all, skip, limit);
    if r.Ok? {
      forall i | 0 <= i < |r.value|
        ensures r.value[i] in multiset(all)
      {
        assert r.value[i] == all[lo + i];
      }
      forall i, j | 0 <= i < j < |r.value|
        ensures less(r.value[i], r.value[j])
      {
        assert r.value[i] == all[lo + i] && r.value[j] == all[lo + j];
      }
    }
  }

  function IdBefore<F>(x: Record<F>, y: Record<F>): bool {
    x.id < y.id
  }

  /** `Select` is the only sequence of the table's rows that holds exactly the rows passing the
      filter, in increasing id order. */
  lemma SelectUnique<F(!new)>(rows: map<int, F>, keep: F -> bool, s: seq<Record<F>>)
    requires RecordsIncreasing(s)
    requires forall x :: x in s ==> x.id in rows && x.fields == rows[x.id] && keep(x.fields)
    requires forall k :: k in rows && keep(rows[k]) ==> Record(k, rows[k]) in s
    ensures s == Select(rows, keep)
  {
    var t := Select(rows, keep);
    forall x | x in t
      ensures x in s
    {
      assert Record(x.id, rows[x.id]) == x;
    }
    forall x | x in s
      ensures x in t
    {
      assert Record(x.id, rows[x.id]) == x;
    }
    assert SortedBy(s, IdBefore) && SortedBy(t, IdBefore);
    SortedUnique(s, t, IdBefore);
  }

  /** `OFFSET skip LIMIT limit`, with the defaults and the bound on `limit` the services
      declare: a limit above 500 is refused before the query runs (422), and a negative skip
      or limit makes the database refuse it (500). */
  function Paginate<T>(ordered: seq<T>, skip: Option<int>, limit: Option<int>): (r: Result<seq<T>>)
    ensures limit.GetOr(DefaultLimit) > MaxLimit ==> r == Err(StatusUnprocessable, LimitTooLarge)
    ensures limit.GetOr(DefaultLimit) <= MaxLimit && (skip.GetOr(0) < 0 || limit.GetOr(DefaultLimit) < 0) ==>
      r == Err(StatusServerError, ServerError)
    ensures r.Ok? <==> 0 <= skip.GetOr(0) && 0 <= limit.GetOr(DefaultLimit) <= MaxLimit
    ensures r.Ok? ==> r.status == StatusOk
    ensures r.Ok? ==> |r.value| == Min(limit.GetOr(DefaultLimit), Max(0, |ordered| - skip.GetOr(0)))
    ensures r.Ok? ==> forall i :: 0 <= i < |r.value| ==> r.value[i] == ordered[skip.GetOr(0) + i]
  {
    var s, l := skip.GetOr(0), limit.GetOr(DefaultLimit);
    if l > MaxLimit then Err(StatusUnprocessable, LimitTooLarge)
    else if s < 0 || l < 0 then Err(StatusServerError, ServerError)
    else if s >= |ordered| then Ok(StatusOk, [])
    else Ok(StatusOk, ordered[s..][..Min(l, |ordered| - s)])
  }

  /** Consecutive pages of one size tile the ordered rows: the page at `skip` followed by the
      page at `skip + size` is the page of twice the size at `skip`. */
  lemma PagesTile<T>(ordered: seq<T>, skip: int, size: int)
    requires 0 <= skip && 0 <= size && 2 * size <= MaxLimit
    ensures var first := Paginate(ordered, Some(skip), Some(size));
      var second := Paginate(ordered, Some(skip + size), Some(size));
      var both := Paginate(ordered, Some(skip), Some(2 * size));
      first.Ok? && second.Ok? && both.Ok? && first.value + second.value == both.value
  {
    var first := Paginate(ordered, Some(skip), Some(size));
    var second := Paginate(ordered, Some(skip + size), Some(size));
    var both := Paginate(ordered, Some(skip), Some(2 * size));
    var joined := first.value + second.value;
    assert |joined| == |both.value|;
    forall i | 0 <= i < |joined|
      ensures joined[i] == both.value[i]
    {
      if i >= |first.value| {
        assert joined[i] == second.value[i - |first.value|];
      }
    }
  }

  /** A page of a sequence in increasing id order holds rows of that sequence, still in
      increasing id order. */
  lemma PageOfIncreasing<F>(all: seq<Record<F>>, skip: Option<int>, limit: Option<int>)
    requires RecordsIncreasing(all)
    ensures var r := Paginate(all, skip, limit);
      r.Ok? ==> RecordsIncreasing(r.value) && forall x :: x in r.value ==> x in all
  {
    var r := Paginate(all, skip, limit);
    var lo, hi := PageSlice(all, skip, limit);
    if r.Ok? {
      forall x | x in r.value
        ensures x in all
      {
        var i :| 0 <= i < |r.value| && r.value[i] == x;
        assert x == all[lo + i];
      }
      forall i, j | 0 <= i < j < |r.value|
        ensures r.value[i].id < r.value[j].id
      {
        assert r.value[i] == all[lo + i] && r.value[j] == all[lo + j];
      }
    }
  }

  /** The listing every service answers: the rows passing the filter in ascending id order,
      then paginated. */
  function ListBy<F(==)>(rows: map<int, F>, keep: F -> bool, skip: Option<int>, limit: Option<int>)
    : (r: Result<seq<Record<F>>>)
    ensures r.Ok? ==> forall x :: x in r.value ==> x.id in rows && x.fields == rows[x.id] && keep(x.fields)
    ensures r.Ok? ==> RecordsIncreasing(r.value)
    ensures r.Ok? <==> 0 <= skip.GetOr(0) && 0 <= limit.GetOr(DefaultLimit) <= MaxLimit
    ensures limit.GetOr(DefaultLimit) > MaxLimit ==> r == Err(StatusUnprocessable, LimitTooLarge)
    ensures r.Err? && limit.GetOr(DefaultLimit) <= MaxLimit ==> r == Err(StatusServerError, ServerError)
    ensures r.Ok? ==> |r.value| == Min(limit.GetOr(DefaultLimit), Max(0, |Select(rows, keep)| - skip.GetOr(0)))
    ensures r.Ok? ==> forall i :: 0 <= i < |r.value| ==>
      skip.GetOr(0) + i < |Select(rows, keep)| && r.value[i] == Select(rows, keep)[skip.GetOr(0) + i]
  {
    ListByPage(rows, keep, skip, limit);
    Paginate(Select(rows, keep), skip, limit)
  }

  /** The page of the passing rows holds passing rows, still in id order, and is the window of
      them that starts at `skip`. */
  lemma ListByPage<F>(rows: map<int, F>, keep: F -> bool, skip: Option<int>, limit: Option<int>)
    ensures var r := Paginate(Select(rows, keep), skip, limit);
      r.Ok? ==> forall x :: x in r.value ==> x.id in rows && x.fields == rows[x.id] && keep(x.fields)
    ensures var r := Paginate(Select(rows, keep), skip, limit);
      r.Ok? ==> RecordsIncreasing(r.value)
    ensures var r := Paginate(Select(rows, keep), skip, limit);
      r.Ok? ==> forall i :: 0 <= i < |r.value| ==>
        skip.GetOr(0) + i < |Select(rows, keep)| && r.value[i] == Select(rows, keep)[skip.GetOr(0) + i]
  {
    PageOfIncreasing(Select(rows, keep), skip, limit);
    PageWindow(Select(rows, keep), skip, limit);
  }

  /** With no skip and no more passing rows than the limit, every passing row is listed: the
      filters leave out nothing else. */
  lemma ListComplete<F>(rows: map<int, F>, keep: F -> bool, limit: Option<int>, k: int)
    requires 0 <= limit.GetOr(DefaultLimit) <= MaxLimit
    requires |Select(rows, keep)| <= limit.GetOr(DefaultLimit)
    requires k in rows && keep(rows[k])
    ensures ListBy(rows, keep, None, limit).Ok?
    ensures Record(k, rows[k]) in ListBy(rows, keep, None, limit).value
  {
    var all := Select(rows, keep);
    PaginateAll(all, limit);
  }

  /** One optional assignment: none, or the single one `b` holds. */
  function Step<F, A>(row: F, b: seq<A>, setattr: (F, A) -> F): F {
    if b == [] then row else setattr(row, b[0])
  }

  /** The assignments of several pieces, one piece after another. */
  function Flatten<A>(pieces: seq<seq<A>>): seq<A> {
    if pieces == [] then [] else Flatten(pieces[..|pieces| - 1]) + pieces[|pieces| - 1]
  }

  /** The row after each optional assignment in turn. */
  function StepAll<F, A>(row: F, pieces: seq<seq<A>>, setattr: (F, A) -> F): F {
    if pieces == [] then row
    else Step(StepAll(row, pieces[..|pieces| - 1], setattr), pieces[|pieces| - 1], setattr)
  }

  /** Applying the flattened assignments is applying each optional assignment in turn. */
  lemma {:induction false} ApplyFlatten<F, A>(row: F, pieces: seq<seq<A>>, setattr: (F, A) -> F)
    requires forall i :: 0 <= i < |pieces| ==> |pieces[i]| <= 1
    ensures ApplyAll(row, Flatten(pieces), setattr) == StepAll(row, pieces, setattr)
  {
    if pieces != [] {
      var init := pieces[..|pieces| - 1];
      ApplyFlatten(row, init, setattr);
      if pieces[|pieces| - 1] == [] {
        assert Flatten(pieces) == Flatten(init);
      } else {
        var f := Flatten(pieces);
        assert f[..|f| - 1] == Flatten(init);
      }
    }
  }

  function Min(a: int, b: int): int { if a <= b then a else b }
  function Max(a: int, b: int): int { if a <= b then b else a }

  /** `db.get(Model, id)` answered as the services do: the row, or 404 with the service's
      detail. */
  function Get<F>(rows: map<int, F>, id: int, table: string): (r: Result<Record<F>>)
    ensures r.Ok? <==> id in rows
    ensures r.Ok? ==> r.status == StatusOk && r.value.id == id && r.value.fields == rows[id]
    ensures r.Err? ==> r.status == StatusNotFound && r.detail == NotFoundDetail(table)
  {
    if id in rows then Ok(StatusOk, Record(id, rows[id])) else Err(StatusNotFound, NotFoundDetail(table))
  }

  /** The row after a sequence of field assignments, applied in order. */
  function ApplyAll<F, A>(row: F, assigns: seq<A>, setattr: (F, A) -> F): F {
    if assigns == [] then row
    else setattr(ApplyAll(row, assigns[..|assigns| - 1], setattr), assigns[|assigns| - 1])
  }

  /** A table of one service, as the database session shows it: the rows by id and the
      sequence that hands out new ids. */
  class Table<F> {
    var rows: map<int, F>
    var nextId: int

    /** Every stored id was handed out by the sequence. */
    ghost predicate Valid()
      reads this
    {
      forall id :: id in rows ==> id < nextId
    }

    constructor ()
      ensures rows == map[] && nextId == 1 && Valid()
    {
      rows := map[];
      nextId := 1;
    }

    /** `db.add(row); db.commit(); db.refresh(row)`: the row is stored under a new id. */
    method Add(fields: F) returns (id: int)
      requires Valid()
      modifies this
      ensures Valid()
      ensures id !in old(rows) && rows == old(rows)[id := fields]
    {
      id := nextId;
      rows := rows[id := fields];
      nextId := nextId + 1;
    }

    /** The `setattr` loop of an update followed by `db.commit()`: each assignment in turn
        changes the stored row; no other row changes. */
    method Assign<A>(id: int, assigns: seq<A>, setattr: (F, A) -> F)
      requires Valid() && id in rows
      modifies this
      ensures Valid()
      ensures rows == old(rows)[id := ApplyAll(old(rows)[id], assigns, setattr)]
    {
      var row := rows[id];
      for j := 0 to |assigns|
        invariant row == ApplyAll(old(rows)[id], assigns[..j], setattr)
      {
        row := setattr(row, assigns[j]);
        assert assigns[..j + 1][..j] == assigns[..j];
      }
      assert assigns[..|assigns|] == assigns;
      rows := rows[id := row];
    }

    /** `db.delete(row); db.commit()`. */
    method Remove(id: int)
      requires Valid() && id in rows
      modifies this
      ensures Valid()
      ensures rows == old(rows) - {id}
    {
      rows := rows - {id};
    }
  }
}
