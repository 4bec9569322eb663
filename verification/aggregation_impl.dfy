/** `openapi_aggregated` (api/hmi_api/main.py) as the gateway runs it: one pass over the
    services that updates the `paths` and `all_schemas` dictionaries, the `tags` list and the
    `seen_tags` set in place, proved to build the document `Aggregation.Aggregated` describes. */
module AggregationImpl {
  import opened Wrappers
  import opened OpenApi
  import opened Aggregation
  import Decimal
  import opened Text

  /** Copies each schema of one document under its name unless the name is taken. */
  method MergeSchemas(allSchemas: map<string, Json>, entries: seq<(string, Json)>)
    returns (merged: map<string, Json>)
    ensures merged == FirstWins(allSchemas, entries)
  {
    merged := allSchemas;
    for j := 0 to |entries|
      invariant merged == FirstWins(allSchemas, entries[..j])
    {
      var (name, schema) := entries[j];
      if name !in merged {
        merged := merged[name := schema];
      }
      assert entries[..j + 1][..j] == entries[..j];
    }
    assert entries[..|entries|] == entries;
  }

  /** Appends each name of one operation's `tags` list that is not listed yet, keeping `seen`
      equal to the names already listed. */
  method AddNewTags(tags: seq<Tag>, seen: set<string>, names: seq<string>)
    returns (tags': seq<Tag>, seen': set<string>)
    requires seen == TagNames(tags)
    ensures tags' == AddTags(tags, names)
    ensures seen' == TagNames(tags')
  {
    tags', seen' := tags, seen;
    for l := 0 to |names|
      invariant seen' == TagNames(tags')
      invariant tags' == AddTags(tags, names[..l])
    {
      AddTagsSnoc(tags, names, l);
      var t := names[l];
      if t !in seen' {
        TagNamesSnoc(tags', t);
        seen' := seen' + {t};
        tags' := tags' + [Tag(t)];
      }
    }
    assert names[..|names|] == names;
  }

  /** Collects the tags of a path item's operation objects. */
  method CollectTags(tags: seq<Tag>, seen: set<string>, item: PathItem)
    returns (tags': seq<Tag>, seen': set<string>)
    requires seen == TagNames(tags)
    ensures tags' == AddTags(tags, ItemTags(item))
    ensures seen' == TagNames(tags')
  {
    tags', seen' := tags, seen;
    if item.NullItem? {
      return;
    }
    var values := item.entries;
    for j := 0 to |values|
      invariant seen' == TagNames(tags')
      invariant tags' == AddTags(tags, EntriesTags(values[..j]))
    {
      EntriesTagsSnoc(values, j);
      AddTagsAppend(tags, EntriesTags(values[..j]), ValueTags(values[j].1));
      var value := values[j].1;
      if value.Operation? {
        tags', seen' := AddNewTags(tags', seen', value.tags.GetOr([]));
      }
    }
    assert values[..|values|] == values;
  }

  /** Copies the kept paths of one service's document, collecting their tags on the way. */
  method MergePaths(svc: string, paths: map<string, PathItem>, tags: seq<Tag>, seen: set<string>,
                    entries: seq<(string, PathItem)>)
    returns (paths': map<string, PathItem>, tags': seq<Tag>, seen': set<string>)
    requires seen == TagNames(tags)
    ensures paths' == LastWins(paths, KeptPaths(svc, entries))
    ensures tags' == AddTags(tags, ItemsTags(KeptPaths(svc, entries)))
    ensures seen' == TagNames(tags')
  {
    paths', tags', seen' := paths, tags, seen;
    for k := 0 to |entries|
      invariant seen' == TagNames(tags')
      invariant paths' == LastWins(paths, KeptPaths(svc, entries[..k]))
      invariant tags' == AddTags(tags, ItemsTags(KeptPaths(svc, entries[..k])))
    {
      ghost var before := KeptPaths(svc, entries[..k]);
      KeptPathsSnoc(svc, entries, k);
      var (path, item) := entries[k];
      if path in SkipPaths || !StartsWith(path, "/" + svc) {
        continue;
      }
      LastWinsSnoc(paths, before, entries[k]);
      ItemsTagsSnoc(before, entries[k]);
      AddTagsAppend(tags, ItemsTags(before), ItemTags(item));
      paths' := paths'[path := item];
      tags', seen' := CollectTags(tags', seen', item);
    }
    assert entries[..|entries|] == entries;
  }

  /** The handler of `GET /openapi.json`; `fetched[i]` is the result of fetching the document
      of `services[i]`. */
  method OpenApiAggregated(services: seq<string>, fetched: seq<Option<Spec>>, appVersion: string)
    returns (doc: Document)
    requires |services| == |fetched|
    ensures doc == Aggregated(services, fetched, appVersion)
  {
    var paths: map<string, PathItem> := map[];
    var tags: seq<Tag> := [];
    var seen: set<string> := {};
    var allSchemas: map<string, Json> := map[];
    for i := 0 to |services|
      invariant seen == TagNames(tags)
      invariant paths == LastWins(map[], AllKept(services[..i], fetched[..i]))
      invariant tags == AddTags([], ItemsTags(AllKept(services[..i], fetched[..i])))
      invariant allSchemas == FirstWins(map[], AllSchemas(fetched[..i]))
    {
      ghost var kept := AllKept(services[..i], fetched[..i]);
      ghost var schemas := AllSchemas(fetched[..i]);
      assert services[..i + 1][..i] == services[..i] && fetched[..i + 1][..i] == fetched[..i];
      ghost var added := KeptPaths(services[i], PathEntries(fetched[i]));
      assert AllKept(services[..i + 1], fetched[..i + 1]) == kept + added;
      assert AllSchemas(fetched[..i + 1]) == schemas + SchemaEntries(fetched[i]);
      LastWinsAppend(map[], kept, added);
      ItemsTagsAppend(kept, added);
      AddTagsAppend([], ItemsTags(kept), ItemsTags(added));
      FirstWinsAppend(map[], schemas, SchemaEntries(fetched[i]));
      var spec := fetched[i];
      if spec.Some? {
        allSchemas := MergeSchemas(allSchemas, SchemaEntries(spec));
        paths, tags, seen := MergePaths(services[i], paths, tags, seen, PathEntries(spec));
      }
    }
    assert services[..|services|] == services && fetched[..|fetched|] == fetched;
    doc := Document(
      "3.0.3",
      "gateway-aggregated",
      Info(Title, appVersion, DescriptionHead + Decimal.FromNat(|tags|) + DescriptionTail),
      paths,
      tags,
      [],
      allSchemas);
  }
}
