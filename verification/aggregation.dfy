/** The gateway's OpenAPI aggregation (`openapi_aggregated`, api/hmi_api/main.py), stated as
    folds over the ordered service list, with the properties the gateway promises of them.
    `fetched[i]` is what fetching the document of `services[i]` produced; `None` is a failed,
    empty or otherwise falsy fetch. */
module Aggregation {
  import opened Wrappers
  import opened OpenApi
  import Decimal
  import opened Text

  /** Infrastructure paths that are never copied into the aggregate. */
  const SkipPaths: set<string> := {"/", "/health", "/openapi.json", "/docs", "/redoc"}

  const OpenApiVersion: string := "3.0.3"
  const SourceMarker: string := "gateway-aggregated"
  const Title: string := "\U{1F3ED} Edge HMI API Documentation"
  const DescriptionHead: string := "게이트웨이 (테이블 API 프록시). Total "
  const DescriptionTail: string := " tables integrated."

  /** Whether the gateway copies `path`, advertised by service `svc`: it is not an
      infrastructure path and it starts with the raw string "/svc". */
  predicate Kept(svc: string, path: string) {
    path !in SkipPaths && StartsWith(path, "/" + svc)
  }

  /** The keys of a JSON object given as (key, value) pairs. */
  function Names<V>(entries: seq<(string, V)>): set<string> {
    set k | 0 <= k < |entries| :: entries[k].0
  }

  // ---------------------------------------------------------------- one document

  /** `(spec.get("components") or {}).get("schemas") or {}`, as pairs. */
  function SchemaEntries(spec: Option<Spec>): seq<(string, Json)> {
    match spec
    case None => []
    case Some(s) =>
      match s.components
      case None => []
      case Some(c) => c.schemas.GetOr([])
  }

  /** `spec.get("paths") or {}`, as pairs. */
  function PathEntries(spec: Option<Spec>): seq<(string, PathItem)> {
    match spec
    case None => []
    case Some(s) => s.paths.GetOr([])
  }

  /** The tags of one value under a path item: `op.get("tags") or []` for an object, nothing
      for anything else. */
  function ValueTags(v: PathValue): seq<string> {
    match v
    case Operation(tags, _) => tags.GetOr([])
    case NotAnObject(_) => []
  }

  /** The tags of a path item's values, in order. */
  function EntriesTags(entries: seq<(string, PathValue)>): seq<string> {
    if entries == [] then []
    else EntriesTags(entries[..|entries| - 1]) + ValueTags(entries[|entries| - 1].1)
  }

  /** The tags of `(path_item or {}).values()`. */
  function ItemTags(item: PathItem): seq<string> {
    match item
    case NullItem => []
    case Item(entries) => EntriesTags(entries)
  }

  /** The path entries of one document that service `svc` contributes, in document order. */
  function KeptPaths(svc: string, entries: seq<(string, PathItem)>): (r: seq<(string, PathItem)>)
    ensures forall e :: e in r <==> e in entries && Kept(svc, e.0)
  {
    if entries == [] then []
    else
      var rest := KeptPaths(svc, entries[..|entries| - 1]);
      var e := entries[|entries| - 1];
      if Kept(svc, e.0) then rest + [e] else rest
  }

  /** The tags of a sequence of path items, item after item. */
  function ItemsTags(items: seq<(string, PathItem)>): seq<string> {
    if items == [] then []
    else ItemsTags(items[..|items| - 1]) + ItemTags(items[|items| - 1].1)
  }

  // ---------------------------------------------------------------- across services

  /** Every schema entry of every fetched document, in service order. */
  function AllSchemas(fetched: seq<Option<Spec>>): seq<(string, Json)> {
    if fetched == [] then []
    else AllSchemas(fetched[..|fetched| - 1]) + SchemaEntries(fetched[|fetched| - 1])
  }

  /** Every kept path entry, in service order and then document order. */
  function AllKept(services: seq<string>, fetched: seq<Option<Spec>>): seq<(string, PathItem)>
    requires |services| == |fetched|
  {
    if services == [] then []
    else
      var n := |services| - 1;
      AllKept(services[..n], fetched[..n]) + KeptPaths(services[n], PathEntries(fetched[n]))
  }

  /** Every tag occurrence the traversal meets: services, then kept paths, then values. */
  function AllTags(services: seq<string>, fetched: seq<Option<Spec>>): seq<string>
    requires |services| == |fetched|
  {
    ItemsTags(AllKept(services, fetched))
  }

  // ---------------------------------------------------------------- the three merges

  /** `if name not in all_schemas: all_schemas[name] = schema`, entry after entry. */
  function FirstWins<V>(acc: map<string, V>, entries: seq<(string, V)>): map<string, V> {
    if entries == [] then acc
    else
      var m := FirstWins(acc, entries[..|entries| - 1]);
      var e := entries[|entries| - 1];
      if e.0 in m then m else m[e.0 := e.1]
  }

  /** `paths[path] = path_item`, entry after entry. */
  function LastWins<V>(acc: map<string, V>, entries: seq<(string, V)>): map<string, V> {
    if entries == [] then acc
    else
      var e := entries[|entries| - 1];
      LastWins(acc, entries[..|entries| - 1])[e.0 := e.1]
  }

  function TagNames(tags: seq<Tag>): set<string> {
    set k | 0 <= k < |tags| :: tags[k].name
  }

  /** `if t not in seen_tags: seen_tags.add(t); tags.append({"name": t})`, name after name,
      where `seen_tags` is the set of names already in `tags`. */
  function AddTags(acc: seq<Tag>, names: seq<string>): seq<Tag> {
    if names == [] then acc
    else
      var a := AddTags(acc, names[..|names| - 1]);
      var t := names[|names| - 1];
      if t in TagNames(a) then a else a + [Tag(t)]
  }

  function Description(count: nat): string {
    DescriptionHead + Decimal.FromNat(count) + DescriptionTail
  }

  /** The document served at `/openapi.json`. */
  function Aggregated(services: seq<string>, fetched: seq<Option<Spec>>, appVersion: string): (d: Document)
    requires |services| == |fetched|
    ensures d.paths.Keys == Names(AllKept(services, fetched))
    ensures d.componentSchemas.Keys == Names(AllSchemas(fetched))
    ensures Distinct(d.tags)
    ensures TagNames(d.tags) == set t | t in AllTags(services, fetched)
  {
    LastWinsKeys(map[], AllKept(services, fetched));
    FirstWinsKeys(map[], AllSchemas(fetched));
    AddTagsDistinct([], AllTags(services, fetched));
    AddTagsNames([], AllTags(services, fetched));
    var tags := AddTags([], AllTags(services, fetched));
    Document(
      OpenApiVersion,
      SourceMarker,
      Info(Title, appVersion, Description(|tags|)),
      LastWins(map[], AllKept(services, fetched)),
      tags,
      [],
      FirstWins(map[], AllSchemas(fetched)))
  }

  /** The number a description states, when it has the gateway's shape. */
  function DescribedCount(description: string): Option<nat> {
    var h, t := |DescriptionHead|, |DescriptionTail|;
    if h + t <= |description| && description[..h] == DescriptionHead
       && description[|description| - t..] == DescriptionTail
       && (forall i :: h <= i < |description| - t ==> Decimal.IsDigit(description[i]))
    then Some(Decimal.ToNat(description[h..|description| - t]))
    else None
  }

  // ================================================================ lemmas: concatenation

  lemma {:induction false} NamesAppend<V>(a: seq<(string, V)>, b: seq<(string, V)>)
    ensures Names(a + b) == Names(a) + Names(b)
  {
    forall n | n in Names(a + b) ensures n in Names(a) + Names(b) {
      var k :| 0 <= k < |a + b| && (a + b)[k].0 == n;
      if k < |a| { assert a[k] == (a + b)[k]; } else { assert b[k - |a|] == (a + b)[k]; }
    }
    forall n | n in Names(a) + Names(b) ensures n in Names(a + b) {
      if n in Names(a) {
        var k :| 0 <= k < |a| && a[k].0 == n;
        assert (a + b)[k] == a[k];
      } else {
        var k :| 0 <= k < |b| && b[k].0 == n;
        assert (a + b)[|a| + k] == b[k];
      }
    }
  }

  lemma {:induction false} FirstWinsAppend<V>(acc: map<string, V>, a: seq<(string, V)>, b: seq<(string, V)>)
    ensures FirstWins(acc, a + b) == FirstWins(FirstWins(acc, a), b)
    decreases |b|
  {
    if b != [] {
      assert (a + b)[..|a + b| - 1] == a + b[..|b| - 1];
      FirstWinsAppend(acc, a, b[..|b| - 1]);
    } else {
      assert a + b == a;
    }
  }

  lemma {:induction false} LastWinsAppend<V>(acc: map<string, V>, a: seq<(string, V)>, b: seq<(string, V)>)
    ensures LastWins(acc, a + b) == LastWins(LastWins(acc, a), b)
    decreases |b|
  {
    if b != [] {
      assert (a + b)[..|a + b| - 1] == a + b[..|b| - 1];
      LastWinsAppend(acc, a, b[..|b| - 1]);
    } else {
      assert a + b == a;
    }
  }

  lemma {:induction false} AddTagsAppend(acc: seq<Tag>, a: seq<string>, b: seq<string>)
    ensures AddTags(acc, a + b) == AddTags(AddTags(acc, a), b)
    decreases |b|
  {
    if b != [] {
      assert (a + b)[..|a + b| - 1] == a + b[..|b| - 1];
      AddTagsAppend(acc, a, b[..|b| - 1]);
    } else {
      assert a + b == a;
    }
  }

  lemma {:induction false} ItemsTagsAppend(a: seq<(string, PathItem)>, b: seq<(string, PathItem)>)
    ensures ItemsTags(a + b) == ItemsTags(a) + ItemsTags(b)
    decreases |b|
  {
    if b != [] {
      assert (a + b)[..|a + b| - 1] == a + b[..|b| - 1];
      ItemsTagsAppend(a, b[..|b| - 1]);
    } else {
      assert a + b == a;
    }
  }

  lemma {:induction false} KeptPathsAppend(svc: string, a: seq<(string, PathItem)>, b: seq<(string, PathItem)>)
    ensures KeptPaths(svc, a + b) == KeptPaths(svc, a) + KeptPaths(svc, b)
    decreases |b|
  {
    if b != [] {
      assert (a + b)[..|a + b| - 1] == a + b[..|b| - 1];
      KeptPathsAppend(svc, a, b[..|b| - 1]);
    } else {
      assert a + b == a;
    }
  }

  lemma {:induction false} AllSchemasAppend(f: seq<Option<Spec>>, g: seq<Option<Spec>>)
    ensures AllSchemas(f + g) == AllSchemas(f) + AllSchemas(g)
    decreases |g|
  {
    if g != [] {
      assert (f + g)[..|f + g| - 1] == f + g[..|g| - 1];
      AllSchemasAppend(f, g[..|g| - 1]);
    } else {
      assert f + g == f;
    }
  }

  lemma {:induction false} AllKeptAppend(s: seq<string>, f: seq<Option<Spec>>, t: seq<string>, g: seq<Option<Spec>>)
    requires |s| == |f| && |t| == |g|
    ensures AllKept(s + t, f + g) == AllKept(s, f) + AllKept(t, g)
    decreases |t|
  {
    if t != [] {
      var n := |t| - 1;
      assert (s + t)[..|s + t| - 1] == s + t[..n];
      assert (f + g)[..|f + g| - 1] == f + g[..n];
      AllKeptAppend(s, f, t[..n], g[..n]);
    } else {
      assert s + t == s && f + g == f;
    }
  }

  // ================================================================ lemmas: the merges

  /** FirstWins keeps every key it starts with and adds exactly the entries' keys. */
  lemma {:induction false} FirstWinsKeys<V>(acc: map<string, V>, entries: seq<(string, V)>)
    ensures FirstWins(acc, entries).Keys == acc.Keys + Names(entries)
    ensures forall n :: n in acc ==> FirstWins(acc, entries)[n] == acc[n]
    decreases |entries|
  {
    if entries != [] {
      var init := entries[..|entries| - 1];
      FirstWinsKeys(acc, init);
      NamesAppend(init, [entries[|entries| - 1]]);
      assert entries == init + [entries[|entries| - 1]];
    }
  }

  /** The value FirstWins stores under a new name is that of the name's first entry. */
  lemma {:induction false} FirstWinsAt<V>(acc: map<string, V>, entries: seq<(string, V)>, i: nat)
    requires i < |entries| && entries[i].0 !in acc
    requires forall j :: 0 <= j < i ==> entries[j].0 != entries[i].0
    ensures entries[i].0 in FirstWins(acc, entries)
    ensures FirstWins(acc, entries)[entries[i].0] == entries[i].1
    decreases |entries|
  {
    FirstWinsKeys(acc, entries);
    var init := entries[..|entries| - 1];
    if i == |entries| - 1 {
      FirstWinsKeys(acc, init);
      forall k | 0 <= k < |init| ensures init[k].0 != entries[i].0 {
        assert init[k] == entries[k];
      }
      assert entries[i].0 !in Names(init);
    } else {
      FirstWinsAt(acc, init, i);
      assert init[i] == entries[i];
    }
  }

  /** LastWins adds exactly the entries' keys to the ones it starts with. */
  lemma {:induction false} LastWinsKeys<V>(acc: map<string, V>, entries: seq<(string, V)>)
    ensures LastWins(acc, entries).Keys == acc.Keys + Names(entries)
    ensures forall n :: n in acc && n !in Names(entries) ==> LastWins(acc, entries)[n] == acc[n]
    decreases |entries|
  {
    if entries != [] {
      var init := entries[..|entries| - 1];
      LastWinsKeys(acc, init);
      NamesAppend(init, [entries[|entries| - 1]]);
      assert entries == init + [entries[|entries| - 1]];
    }
  }

  /** The value LastWins stores under a name is that of the name's last entry. */
  lemma {:induction false} LastWinsAt<V>(acc: map<string, V>, entries: seq<(string, V)>, i: nat)
    requires i < |entries|
    requires forall j :: i < j < |entries| ==> entries[j].0 != entries[i].0
    ensures entries[i].0 in LastWins(acc, entries)
    ensures LastWins(acc, entries)[entries[i].0] == entries[i].1
    decreases |entries|
  {
    if i < |entries| - 1 {
      LastWinsAt(acc, entries[..|entries| - 1], i);
      assert entries[..|entries| - 1][i] == entries[i];
    }
  }

  /** An entry followed by no entry with the same key is what LastWins keeps. */
  lemma LastWinsAfter<V>(acc: map<string, V>, a: seq<(string, V)>, e: (string, V), b: seq<(string, V)>)
    requires e.0 !in Names(b)
    ensures e.0 in LastWins(acc, a + [e] + b) && LastWins(acc, a + [e] + b)[e.0] == e.1
  {
    var m := LastWins(acc, a + [e]);
    assert e.0 in m && m[e.0] == e.1 by {
      assert (a + [e])[..|a + [e]| - 1] == a;
    }
    LastWinsAppend(acc, a + [e], b);
    LastWinsKeys(m, b);
  }

  /** LastWinsAfter, with the entry inside a middle segment. */
  lemma LastWinsAfterIn<V>(acc: map<string, V>, p: seq<(string, V)>, x: seq<(string, V)>, e: (string, V),
                           y: seq<(string, V)>, q: seq<(string, V)>)
    requires e.0 !in Names(y + q)
    ensures e.0 in LastWins(acc, p + (x + [e] + y) + q) && LastWins(acc, p + (x + [e] + y) + q)[e.0] == e.1
  {
    assert p + (x + [e] + y) + q == (p + x) + [e] + (y + q);
    LastWinsAfter(acc, p + x, e, y + q);
  }

  /** Appending a tag adds its name. */
  lemma TagNamesSnoc(a: seq<Tag>, t: string)
    ensures TagNames(a + [Tag(t)]) == TagNames(a) + {t}
  {
    var b := a + [Tag(t)];
    assert b[|a|].name == t;
    forall n | n in TagNames(b) ensures n in TagNames(a) + {t} {
      var k :| 0 <= k < |b| && b[k].name == n;
      if k < |a| { assert b[k] == a[k]; }
    }
    forall n | n in TagNames(a) ensures n in TagNames(b) {
      var k :| 0 <= k < |a| && a[k].name == n;
      assert b[k] == a[k];
    }
  }

  /** Adding tags adds exactly the new names. */
  lemma {:induction false} AddTagsNames(acc: seq<Tag>, names: seq<string>)
    ensures TagNames(AddTags(acc, names)) == TagNames(acc) + (set t | t in names)
    decreases |names|
  {
    if names != [] {
      var init, t := names[..|names| - 1], names[|names| - 1];
      AddTagsNames(acc, init);
      var a := AddTags(acc, init);
      if t !in TagNames(a) {
        TagNamesSnoc(a, t);
      }
      assert names == init + [t];
    }
  }

  predicate Distinct(tags: seq<Tag>) {
    forall i, j :: 0 <= i < j < |tags| ==> tags[i].name != tags[j].name
  }

  /** Adding tags never introduces a duplicate name, and keeps what was there in front. */
  lemma {:induction false} AddTagsDistinct(acc: seq<Tag>, names: seq<string>)
    requires Distinct(acc)
    ensures Distinct(AddTags(acc, names))
    ensures acc <= AddTags(acc, names)
    decreases |names|
  {
    if names != [] {
      var init, t := names[..|names| - 1], names[|names| - 1];
      AddTagsDistinct(acc, init);
      var a := AddTags(acc, init);
      if t !in TagNames(a) {
        forall i | 0 <= i < |a| ensures a[i].name != t {
          assert a[i].name in TagNames(a);
        }
      }
    }
  }

  /** The position of the first occurrence of `x` in `s`. */
  function FirstIndex(s: seq<string>, x: string): (i: nat)
    requires x in s
    ensures i < |s| && s[i] == x && x !in s[..i]
  {
    if s[0] == x then 0 else 1 + FirstIndex(s[1..], x)
  }

  lemma {:induction false} FirstIndexPrefix(s: seq<string>, m: nat, x: string)
    requires m <= |s| && x in s[..m]
    ensures FirstIndex(s, x) == FirstIndex(s[..m], x) < m
  {
    var i, j := FirstIndex(s, x), FirstIndex(s[..m], x);
    assert s[..m][..j] == s[..j];
  }

  /** The tags built from nothing list the names at their first occurrences, in order. */
  lemma {:induction false} AddTagsOrder(names: seq<string>)
    ensures forall k :: 0 <= k < |AddTags([], names)| ==> AddTags([], names)[k].name in names
    ensures forall i, j :: 0 <= i < j < |AddTags([], names)| ==>
      FirstIndex(names, AddTags([], names)[i].name) < FirstIndex(names, AddTags([], names)[j].name)
    decreases |names|
  {
    if names != [] {
      var n := |names| - 1;
      var init, t := names[..n], names[n];
      AddTagsOrder(init);
      AddTagsNames([], init);
      var a := AddTags([], init);
      assert TagNames([]) == {};
      assert names[..n] == init;
      forall k | 0 <= k < |a| ensures a[k].name in init && FirstIndex(names, a[k].name) == FirstIndex(init, a[k].name) {
        FirstIndexPrefix(names, n, a[k].name);
      }
      if t !in TagNames(a) {
        assert t !in init;
        assert FirstIndex(names, t) == n;
        var r := a + [Tag(t)];
        forall i, j | 0 <= i < j < |r|
          ensures FirstIndex(names, r[i].name) < FirstIndex(names, r[j].name)
        {
          assert r[i] == a[i];
          if j < |a| { assert r[j] == a[j]; }
        }
      }
    }
  }

  // ================================================================ lemmas: across services

  /** A name no fetched document defines is not among all schema entries. */
  lemma {:induction false} NotInAllSchemas(f: seq<Option<Spec>>, n: string)
    requires forall s :: 0 <= s < |f| ==> n !in Names(SchemaEntries(f[s]))
    ensures n !in Names(AllSchemas(f))
    decreases |f|
  {
    if f != [] {
      var init := f[..|f| - 1];
      NotInAllSchemas(init, n);
      NamesAppend(AllSchemas(init), SchemaEntries(f[|f| - 1]));
    }
  }

  /** The kept entries across services are exactly the entries that some service advertises
      and keeps. */
  lemma {:induction false} AllKeptMembers(services: seq<string>, fetched: seq<Option<Spec>>, e: (string, PathItem))
    requires |services| == |fetched|
    ensures e in AllKept(services, fetched) <==>
      exists s :: 0 <= s < |services| && e in PathEntries(fetched[s]) && Kept(services[s], e.0)
  {
    if e in AllKept(services, fetched) {
      var s := KeptSource(services, fetched, e);
    }
    if exists s :: 0 <= s < |services| && e in PathEntries(fetched[s]) && Kept(services[s], e.0) {
      var s :| 0 <= s < |services| && e in PathEntries(fetched[s]) && Kept(services[s], e.0);
      KeptFrom(services, fetched, e, s);
    }
  }

  /** A kept entry comes from a service that advertises and keeps it. */
  lemma {:induction false} KeptSource(services: seq<string>, fetched: seq<Option<Spec>>, e: (string, PathItem))
    returns (s: nat)
    requires |services| == |fetched| && e in AllKept(services, fetched)
    ensures s < |services| && e in PathEntries(fetched[s]) && Kept(services[s], e.0)
    decreases |services|
  {
    var n := |services| - 1;
    var sb, fb := services[..n], fetched[..n];
    assert AllKept(services, fetched) == AllKept(sb, fb) + KeptPaths(services[n], PathEntries(fetched[n]));
    if e in AllKept(sb, fb) {
      s := KeptSource(sb, fb, e);
      assert fb[s] == fetched[s] && sb[s] == services[s];
    } else {
      s := n;
    }
  }

  /** An entry that a service advertises and keeps is among the kept entries. */
  lemma {:induction false} KeptFrom(services: seq<string>, fetched: seq<Option<Spec>>, e: (string, PathItem), s: nat)
    requires |services| == |fetched| && s < |services|
    requires e in PathEntries(fetched[s]) && Kept(services[s], e.0)
    ensures e in AllKept(services, fetched)
    decreases |services|
  {
    var n := |services| - 1;
    var sb, fb := services[..n], fetched[..n];
    assert AllKept(services, fetched) == AllKept(sb, fb) + KeptPaths(services[n], PathEntries(fetched[n]));
    if s < n {
      assert fb[s] == fetched[s] && sb[s] == services[s];
      KeptFrom(sb, fb, e, s);
    }
  }

  /** A schema name keeps the definition from the earliest service defining it (its first
      entry there); no later service overwrites it. */
  lemma {:induction false} SchemaFromEarliestService(
    services: seq<string>, fetched: seq<Option<Spec>>, appVersion: string, i: nat, k: nat)
    requires |services| == |fetched|
    requires i < |fetched| && k < |SchemaEntries(fetched[i])|
    requires forall j :: 0 <= j < k ==> SchemaEntries(fetched[i])[j].0 != SchemaEntries(fetched[i])[k].0
    requires forall s :: 0 <= s < i ==> SchemaEntries(fetched[i])[k].0 !in Names(SchemaEntries(fetched[s]))
    ensures SchemaEntries(fetched[i])[k].0 in Aggregated(services, fetched, appVersion).componentSchemas
    ensures Aggregated(services, fetched, appVersion).componentSchemas[SchemaEntries(fetched[i])[k].0]
         == SchemaEntries(fetched[i])[k].1
  {
    var es := SchemaEntries(fetched[i]);
    var name := es[k].0;
    var before := fetched[..i];
    var p, r := AllSchemas(before), AllSchemas(fetched[i + 1..]);
    AllSchemasAround(fetched, i);
    FirstWinsAppend(map[], p + es, r);
    FirstWinsAppend(map[], p, es);
    forall s | 0 <= s < |before| ensures name !in Names(SchemaEntries(before[s])) {
      assert before[s] == fetched[s];
    }
    NotInAllSchemas(before, name);
    var m0 := FirstWins(map[], p);
    FirstWinsKeys(map[], p);
    FirstWinsAt(m0, es, k);
    var m1 := FirstWins(m0, es);
    FirstWinsKeys(m0, es);
    FirstWinsKeys(m1, r);
  }

  /** One more entry of a document: kept or not. */
  lemma KeptPathsSnoc(svc: string, entries: seq<(string, PathItem)>, k: nat)
    requires k < |entries|
    ensures Kept(svc, entries[k].0) ==> KeptPaths(svc, entries[..k + 1]) == KeptPaths(svc, entries[..k]) + [entries[k]]
    ensures !Kept(svc, entries[k].0) ==> KeptPaths(svc, entries[..k + 1]) == KeptPaths(svc, entries[..k])
  {
    assert entries[..k + 1][..k] == entries[..k];
  }

  lemma ItemsTagsSnoc(items: seq<(string, PathItem)>, e: (string, PathItem))
    ensures ItemsTags(items + [e]) == ItemsTags(items) + ItemTags(e.1)
  {
    assert (items + [e])[..|items|] == items;
  }

  lemma LastWinsSnoc<V>(acc: map<string, V>, entries: seq<(string, V)>, e: (string, V))
    ensures LastWins(acc, entries + [e]) == LastWins(acc, entries)[e.0 := e.1]
  {
    assert (entries + [e])[..|entries|] == entries;
  }

  /** One more name: appended when new, ignored when already listed. */
  lemma AddTagsSnoc(acc: seq<Tag>, names: seq<string>, l: nat)
    requires l < |names|
    ensures names[l] in TagNames(AddTags(acc, names[..l])) ==>
      AddTags(acc, names[..l + 1]) == AddTags(acc, names[..l])
    ensures names[l] !in TagNames(AddTags(acc, names[..l])) ==>
      AddTags(acc, names[..l + 1]) == AddTags(acc, names[..l]) + [Tag(names[l])]
  {
    assert names[..l + 1][..l] == names[..l];
  }

  /** One more value of a path item. */
  lemma EntriesTagsSnoc(values: seq<(string, PathValue)>, j: nat)
    requires j < |values|
    ensures EntriesTags(values[..j + 1]) == EntriesTags(values[..j]) + ValueTags(values[j].1)
  {
    assert values[..j + 1][..j] == values[..j];
  }

  /** A sequence is its prefix, its element `i` and its suffix. */
  lemma SplitAt<T>(s: seq<T>, i: nat)
    requires i < |s|
    ensures s == s[..i] + [s[i]] + s[i + 1..]
  {
  }

  lemma AllKeptOne(svc: string, spec: Option<Spec>)
    ensures AllKept([svc], [spec]) == KeptPaths(svc, PathEntries(spec))
  {
    assert [svc][..0] == [] && [spec][..0] == [];
  }

  lemma AllSchemasOne(spec: Option<Spec>)
    ensures AllSchemas([spec]) == SchemaEntries(spec)
  {
    assert [spec][..0] == [];
  }

  /** The kept entries split around service `i`. */
  lemma AllKeptAround(services: seq<string>, fetched: seq<Option<Spec>>, i: nat)
    requires |services| == |fetched| && i < |services|
    ensures AllKept(services, fetched)
         == AllKept(services[..i], fetched[..i]) + KeptPaths(services[i], PathEntries(fetched[i]))
          + AllKept(services[i + 1..], fetched[i + 1..])
  {
    SplitAt(services, i);
    SplitAt(fetched, i);
    AllKeptAppend(services[..i] + [services[i]], fetched[..i] + [fetched[i]], services[i + 1..], fetched[i + 1..]);
    AllKeptAppend(services[..i], fetched[..i], [services[i]], [fetched[i]]);
    AllKeptOne(services[i], fetched[i]);
  }

  /** The schema entries split around document `i`. */
  lemma AllSchemasAround(fetched: seq<Option<Spec>>, i: nat)
    requires i < |fetched|
    ensures AllSchemas(fetched) == AllSchemas(fetched[..i]) + SchemaEntries(fetched[i]) + AllSchemas(fetched[i + 1..])
  {
    SplitAt(fetched, i);
    AllSchemasAppend(fetched[..i] + [fetched[i]], fetched[i + 1..]);
    AllSchemasAppend(fetched[..i], [fetched[i]]);
    AllSchemasOne(fetched[i]);
  }

  /** The kept entries of one document split around a kept entry `k`. */
  lemma KeptPathsAround(svc: string, es: seq<(string, PathItem)>, k: nat)
    requires k < |es| && Kept(svc, es[k].0)
    ensures KeptPaths(svc, es) == KeptPaths(svc, es[..k]) + [es[k]] + KeptPaths(svc, es[k + 1..])
  {
    assert es == es[..k + 1] + es[k + 1..];
    KeptPathsAppend(svc, es[..k + 1], es[k + 1..]);
    assert es[..k + 1][..k] == es[..k];
  }

  /** After kept entry `k` of document `i`, no kept entry carries the same path, when neither
      the rest of that document nor a later service keeps it. */
  lemma NoLaterKeptOccurrence(services: seq<string>, fetched: seq<Option<Spec>>, i: nat, k: nat)
    requires |services| == |fetched|
    requires i < |fetched| && k < |PathEntries(fetched[i])|
    requires forall j :: k < j < |PathEntries(fetched[i])| ==> PathEntries(fetched[i])[j].0 != PathEntries(fetched[i])[k].0
    requires forall s :: i < s < |fetched| ==>
      !(Kept(services[s], PathEntries(fetched[i])[k].0) && PathEntries(fetched[i])[k].0 in Names(PathEntries(fetched[s])))
    ensures PathEntries(fetched[i])[k].0 !in Names(
      KeptPaths(services[i], PathEntries(fetched[i])[k + 1..]) + AllKept(services[i + 1..], fetched[i + 1..]))
  {
    var es := PathEntries(fetched[i]);
    var e := es[k];
    var y := KeptPaths(services[i], es[k + 1..]);
    var sa, fa := services[i + 1..], fetched[i + 1..];
    var q := AllKept(sa, fa);
    forall j | 0 <= j < |y| ensures y[j].0 != e.0 {
      assert y[j] in es[k + 1..];
      var j' :| 0 <= j' < |es[k + 1..]| && es[k + 1..][j'] == y[j];
      assert es[k + 1 + j'] == y[j];
    }
    forall j | 0 <= j < |q| ensures q[j].0 != e.0 {
      AllKeptMembers(sa, fa, q[j]);
      var s :| 0 <= s < |sa| && q[j] in PathEntries(fa[s]) && Kept(sa[s], q[j].0);
      assert fa[s] == fetched[i + 1 + s] && sa[s] == services[i + 1 + s];
      var j' :| 0 <= j' < |PathEntries(fa[s])| && PathEntries(fa[s])[j'] == q[j];
      assert q[j].0 in Names(PathEntries(fetched[i + 1 + s]));
    }
    NamesAppend(y, q);
  }

  /** The merged paths map a kept path to the item of its last kept occurrence. */
  lemma KeptPathLastOccurrence(services: seq<string>, fetched: seq<Option<Spec>>, i: nat, k: nat)
    requires |services| == |fetched|
    requires i < |fetched| && k < |PathEntries(fetched[i])|
    requires Kept(services[i], PathEntries(fetched[i])[k].0)
    requires PathEntries(fetched[i])[k].0 !in Names(
      KeptPaths(services[i], PathEntries(fetched[i])[k + 1..]) + AllKept(services[i + 1..], fetched[i + 1..]))
    ensures PathEntries(fetched[i])[k].0 in LastWins(map[], AllKept(services, fetched))
    ensures LastWins(map[], AllKept(services, fetched))[PathEntries(fetched[i])[k].0] == PathEntries(fetched[i])[k].1
  {
    var es := PathEntries(fetched[i]);
    var e := es[k];
    var svc := services[i];
    var p, q := AllKept(services[..i], fetched[..i]), AllKept(services[i + 1..], fetched[i + 1..]);
    var x, y := KeptPaths(svc, es[..k]), KeptPaths(svc, es[k + 1..]);
    AllKeptAround(services, fetched, i);
    KeptPathsAround(svc, es, k);
    LastWinsAfterIn(map[], p, x, e, y, q);
  }

  /** A kept path holds, verbatim, the item of its last kept occurrence: that of the latest
      service keeping it, and the last entry of that path in its document. */
  lemma PathFromLatestService(
    services: seq<string>, fetched: seq<Option<Spec>>, appVersion: string, i: nat, k: nat)
    requires |services| == |fetched|
    requires i < |fetched| && k < |PathEntries(fetched[i])|
    requires Kept(services[i], PathEntries(fetched[i])[k].0)
    requires forall j :: k < j < |PathEntries(fetched[i])| ==> PathEntries(fetched[i])[j].0 != PathEntries(fetched[i])[k].0
    requires forall s :: i < s < |fetched| ==>
      !(Kept(services[s], PathEntries(fetched[i])[k].0) && PathEntries(fetched[i])[k].0 in Names(PathEntries(fetched[s])))
    ensures PathEntries(fetched[i])[k].0 in Aggregated(services, fetched, appVersion).paths
    ensures Aggregated(services, fetched, appVersion).paths[PathEntries(fetched[i])[k].0] == PathEntries(fetched[i])[k].1
  {
    NoLaterKeptOccurrence(services, fetched, i, k);
    KeptPathLastOccurrence(services, fetched, i, k);
  }

  /** An entry's key is among the keys. */
  lemma NameOf<V>(entries: seq<(string, V)>, e: (string, V))
    requires e in entries
    ensures e.0 in Names(entries)
  {
    var j :| 0 <= j < |entries| && entries[j] == e;
  }

  /** A key comes with an entry. */
  lemma EntryOf<V>(entries: seq<(string, V)>, n: string) returns (e: (string, V))
    requires n in Names(entries)
    ensures e in entries && e.0 == n
  {
    var j :| 0 <= j < |entries| && entries[j].0 == n;
    e := entries[j];
  }

  /** A path appears in the aggregate exactly when some service advertises it and keeps it. */
  lemma PathKeptExactly(
    services: seq<string>, fetched: seq<Option<Spec>>, appVersion: string, path: string)
    requires |services| == |fetched|
    ensures path in Aggregated(services, fetched, appVersion).paths <==>
      exists s :: 0 <= s < |services| && path in Names(PathEntries(fetched[s])) && Kept(services[s], path)
  {
    var all := AllKept(services, fetched);
    LastWinsKeys(map[], all);
    if path in Names(all) {
      var e := EntryOf(all, path);
      AllKeptMembers(services, fetched, e);
      var s :| 0 <= s < |services| && e in PathEntries(fetched[s]) && Kept(services[s], path);
      NameOf(PathEntries(fetched[s]), e);
    }
    if exists s :: 0 <= s < |services| && path in Names(PathEntries(fetched[s])) && Kept(services[s], path) {
      var s :| 0 <= s < |services| && path in Names(PathEntries(fetched[s])) && Kept(services[s], path);
      var e := EntryOf(PathEntries(fetched[s]), path);
      AllKeptMembers(services, fetched, e);
      NameOf(all, e);
    }
  }

  /** The tag list has no duplicate names, and lists every tag the traversal meets at the
      position of its first occurrence (services, then kept paths, then values). */
  lemma {:induction false} TagsDistinctInFirstOccurrenceOrder(
    services: seq<string>, fetched: seq<Option<Spec>>, appVersion: string)
    requires |services| == |fetched|
    ensures Distinct(Aggregated(services, fetched, appVersion).tags)
    ensures forall t :: t in TagNames(Aggregated(services, fetched, appVersion).tags) <==> t in AllTags(services, fetched)
    ensures forall i, j :: 0 <= i < j < |Aggregated(services, fetched, appVersion).tags| ==>
      FirstIndex(AllTags(services, fetched), Aggregated(services, fetched, appVersion).tags[i].name)
        < FirstIndex(AllTags(services, fetched), Aggregated(services, fetched, appVersion).tags[j].name)
  {
    var all := AllTags(services, fetched);
    AddTagsDistinct([], all);
    AddTagsNames([], all);
    assert TagNames([]) == {};
    AddTagsOrder(all);
  }

  /** Whether `v` is an operation object whose `tags` list names `t`. */
  predicate TaggedOperation(v: PathValue, t: string) {
    v.Operation? && v.tags.Some? && t in v.tags.value
  }

  /** The tags of a path item come from its object values only; a value that is not an
      object, or an object without a `tags` key, adds nothing. */
  lemma {:induction false} ItemTagsFromOperations(entries: seq<(string, PathValue)>, t: string)
    ensures t in EntriesTags(entries) <==> exists j :: 0 <= j < |entries| && TaggedOperation(entries[j].1, t)
    decreases |entries|
  {
    if entries != [] {
      var n := |entries| - 1;
      ItemTagsFromOperations(entries[..n], t);
      if exists j :: 0 <= j < |entries| && TaggedOperation(entries[j].1, t) {
        var j :| 0 <= j < |entries| && TaggedOperation(entries[j].1, t);
        if j < n { assert entries[..n][j] == entries[j]; }
      }
    }
  }

  /** Every tag occurrence comes from a kept path item, and every tag of a kept path item
      occurs. */
  lemma TagsFromKeptItems(items: seq<(string, PathItem)>, t: string)
    ensures t in ItemsTags(items) <==> exists k :: 0 <= k < |items| && t in ItemTags(items[k].1)
  {
    if t in ItemsTags(items) {
      var k := ItemOfTag(items, t);
    }
    if exists k :: 0 <= k < |items| && t in ItemTags(items[k].1) {
      var k :| 0 <= k < |items| && t in ItemTags(items[k].1);
      TagOfItem(items, k, t);
    }
  }

  /** A tag of one kept item occurs in the tags of all of them. */
  lemma {:induction false} TagOfItem(items: seq<(string, PathItem)>, k: nat, t: string)
    requires k < |items| && t in ItemTags(items[k].1)
    ensures t in ItemsTags(items)
    decreases |items|
  {
    var n := |items| - 1;
    var init := items[..n];
    assert ItemsTags(items) == ItemsTags(init) + ItemTags(items[n].1);
    if k < n {
      assert init[k] == items[k];
      TagOfItem(init, k, t);
    }
  }

  /** A tag occurrence comes from one of the kept items. */
  lemma {:induction false} ItemOfTag(items: seq<(string, PathItem)>, t: string) returns (k: nat)
    requires t in ItemsTags(items)
    ensures k < |items| && t in ItemTags(items[k].1)
    decreases |items|
  {
    var n := |items| - 1;
    var init := items[..n];
    assert ItemsTags(items) == ItemsTags(init) + ItemTags(items[n].1);
    if t in ItemsTags(init) {
      k := ItemOfTag(init, t);
      assert init[k] == items[k];
    } else {
      k := n;
    }
  }

  /** Whether a path item holds an operation object tagged `t`. */
  predicate ItemHasTag(item: PathItem, t: string) {
    item.Item? && exists j :: 0 <= j < |item.entries| && TaggedOperation(item.entries[j].1, t)
  }

  /** The aggregated tags are exactly the tags of operation objects under kept paths. */
  lemma TagsFromKeptOperations(services: seq<string>, fetched: seq<Option<Spec>>, appVersion: string, t: string)
    requires |services| == |fetched|
    ensures t in TagNames(Aggregated(services, fetched, appVersion).tags) <==>
      exists k :: 0 <= k < |AllKept(services, fetched)| && ItemHasTag(AllKept(services, fetched)[k].1, t)
  {
    var all := AllKept(services, fetched);
    assert t in TagNames(Aggregated(services, fetched, appVersion).tags) <==> t in ItemsTags(all) by {
      TagsDistinctInFirstOccurrenceOrder(services, fetched, appVersion);
    }
    TagsFromKeptItems(all, t);
    forall k | 0 <= k < |all| ensures t in ItemTags(all[k].1) <==> ItemHasTag(all[k].1, t) {
      if all[k].1.Item? { ItemTagsFromOperations(all[k].1.entries, t); }
    }
  }

  /** Without path entries, service `i` adds no kept entry. */
  lemma AllKeptWithout(services: seq<string>, fetched: seq<Option<Spec>>, i: nat)
    requires |services| == |fetched| && i < |fetched| && PathEntries(fetched[i]) == []
    ensures AllKept(services, fetched)
         == AllKept(services[..i] + services[i + 1..], fetched[..i] + fetched[i + 1..])
  {
    AllKeptAround(services, fetched, i);
    AllKeptAppend(services[..i], fetched[..i], services[i + 1..], fetched[i + 1..]);
    assert KeptPaths(services[i], []) == [];
    SkipEmpty(AllKept(services[..i], fetched[..i]), AllKept(services[i + 1..], fetched[i + 1..]));
  }

  /** Without schema entries, document `i` adds no schema entry. */
  lemma AllSchemasWithout(fetched: seq<Option<Spec>>, i: nat)
    requires i < |fetched| && SchemaEntries(fetched[i]) == []
    ensures AllSchemas(fetched) == AllSchemas(fetched[..i] + fetched[i + 1..])
  {
    AllSchemasAround(fetched, i);
    AllSchemasAppend(fetched[..i], fetched[i + 1..]);
    SkipEmpty(AllSchemas(fetched[..i]), AllSchemas(fetched[i + 1..]));
  }

  lemma SkipEmpty<T>(a: seq<T>, b: seq<T>)
    ensures a + [] + b == a + b
  {
  }

  /** A document that contributes no schema entry and no path entry (absent, empty, or
      lacking both keys) leaves the aggregate as if its service were not listed. */
  lemma EmptyContributionIgnored(
    services: seq<string>, fetched: seq<Option<Spec>>, appVersion: string, i: nat)
    requires |services| == |fetched| && i < |fetched|
    requires SchemaEntries(fetched[i]) == [] && PathEntries(fetched[i]) == []
    ensures Aggregated(services, fetched, appVersion)
         == Aggregated(services[..i] + services[i + 1..], fetched[..i] + fetched[i + 1..], appVersion)
  {
    AllKeptWithout(services, fetched, i);
    AllSchemasWithout(fetched, i);
  }

  /** With every fetch failed there is no schema entry and no kept path. */
  lemma {:induction false} NothingFetched(services: seq<string>, fetched: seq<Option<Spec>>)
    requires |services| == |fetched|
    requires forall s :: 0 <= s < |fetched| ==> fetched[s].None?
    ensures AllKept(services, fetched) == [] && AllSchemas(fetched) == []
    decreases |services|
  {
    if services != [] {
      var n := |services| - 1;
      assert forall s :: 0 <= s < n ==> fetched[..n][s] == fetched[s];
      NothingFetched(services[..n], fetched[..n]);
    }
  }

  /** With every fetch failed, the document is the bare envelope. */
  lemma AllFetchesFailed(services: seq<string>, fetched: seq<Option<Spec>>, appVersion: string)
    requires |services| == |fetched|
    requires forall s :: 0 <= s < |fetched| ==> fetched[s].None?
    ensures Aggregated(services, fetched, appVersion) == Document(
      "3.0.3", "gateway-aggregated", Info(Title, appVersion, Description(0)), map[], [], [], map[])
  {
    NothingFetched(services, fetched);
  }

  /** The envelope is fixed, and the description states the number of tags. */
  lemma Envelope(services: seq<string>, fetched: seq<Option<Spec>>, appVersion: string)
    requires |services| == |fetched|
    ensures var doc := Aggregated(services, fetched, appVersion);
      && doc.openapi == "3.0.3" && doc.xSource == "gateway-aggregated" && doc.servers == []
      && doc.info.title == Title && doc.info.version == appVersion
      && DescribedCount(doc.info.description) == Some(|doc.tags|)
  {
    var doc := Aggregated(services, fetched, appVersion);
    var digits := Decimal.FromNat(|doc.tags|);
    var d := doc.info.description;
    var h, t := |DescriptionHead|, |DescriptionTail|;
    assert d == DescriptionHead + digits + DescriptionTail;
    assert d[..h] == DescriptionHead;
    assert d[|d| - t..] == DescriptionTail;
    assert d[h..|d| - t] == digits;
    Decimal.ToNatFromNat(|doc.tags|);
  }
}
