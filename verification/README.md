# edge-hmi gateway and table services, modelled in Dafny

The system is a set of per-table REST services for a production line (shift assignments,
defect codes, parts, work orders and several history tables) fronted by a gateway. The
gateway does two things:

- It serves one OpenAPI document merged from the documents of every table service.
- It forwards every request under `/<service>` to that service.

Each table service lists, reads, creates, partially updates and deletes rows of one table.

The model covers both.

- **Merged document.** `Aggregation` states what the merged document is. It gives the
  document as folds over the services' fetched documents. `AggregationImpl` is the handler
  itself: nested loops that update the `paths` and `all_schemas` dictionaries, the `tags`
  list and the `seen_tags` set in place. Its contract says that the loops build the document
  `Aggregation` describes. The lemmas in `Aggregation` then prove what the document holds:
  - schemas come from the earliest service that defines them;
  - a path holds the item of its last kept occurrence;
  - exactly the kept paths appear;
  - tags are distinct and listed in first-occurrence order;
  - the description states the tag count.
- **Routes and forwarding.** `Proxy` models the gateway's route table as a class:
  - its own pages and mount;
  - the two proxy routes per service, which `_register_proxy_routes` appends.

  `Routing` models how a request is dispatched over that table: the first route matching
  path and method handles it; otherwise a path-only match answers 405, and a redirect adds a
  missing trailing slash or strips all trailing slashes when the other spelling matches. The proofs show:
  - every request under a registered service reaches that service's proxy route;
  - the request is forwarded at the path it was made to;
  - a request for an unknown service is answered 404.
- **Table services.** `Crud` holds what every table service shares:
  - the table of rows, with the ids the database hands out;
  - listing: filter, order, `OFFSET`/`LIMIT` with their defaults and bounds;
  - the 404 lookup;
  - the `setattr` loop of a partial update.

  Each table has a module of its own that models its router (`ShiftMap`, `DefectCodeMst`,
  `PartsMst`, `WorkOrder`, `DefectHis`, `StatusHis`, `ProdHis`, `AlarmHis`, `MaintHis`). The
  update loop over the set fields is proved to give the row in which exactly the set fields
  changed. `StatusHis` lists rows by start time. That order is proved to be the only
  chronological arrangement of the matching rows.

The following are parameters of the model:

- The list of services and the application version. `hmi_api/config.py` is not part of this
  model.
- The result of fetching each service's document. `hmi_api/proxy.py` is not part of this
  model.

The database session is a `Crud.Table` object: a map from id to row, plus the sequence that
hands out ids.

Duplicate paths across services are merged last-writer-wins (`paths[path] = path_item`).
When two services share a name, the route registered first answers their requests.

## Model

| member | source | states |
|---|---|---|
| AggregationImpl.OpenApiAggregated | api/hmi_api/main.py:80-119 | the handler's loop over the services returns exactly the merged document `Aggregation.Aggregated` defines for the fetched documents |
| Aggregation.Aggregated | api/hmi_api/main.py:80-119 | the merged `paths` hold exactly the kept paths of all services, the schemas exactly the names some document defines, and the tags are distinct and name exactly the tags met |
| AggregationImpl.MergeSchemas | api/hmi_api/main.py:92-95 | copying one document's schemas leaves the first-wins merge of the earlier map with those schemas |
| AggregationImpl.MergePaths | api/hmi_api/main.py:96-106 | copying one document's paths gives the last-wins merge of its kept entries, and the tag list grows by the new tags of exactly those entries, with `seen_tags` kept equal to the listed names |
| AggregationImpl.CollectTags | api/hmi_api/main.py:100-106 | walking a path item's values adds the new tags of its operation objects in order, keeping `seen_tags` equal to the listed names |
| AggregationImpl.AddNewTags | api/hmi_api/main.py:103-106 | one operation's tag names are appended when new and skipped when already listed |
| Aggregation.KeptPaths | api/hmi_api/main.py:96-98 | an entry is contributed by a service exactly when its path is not an infrastructure path and starts with `/<service>` |
| Aggregation.PathKeptExactly | api/hmi_api/main.py:88-99 | a path is in the merged `paths` exactly when some fetched service advertises it and keeps it |
| Aggregation.PathFromLatestService | api/hmi_api/main.py:96-99 | a kept path holds verbatim the item of the latest service keeping it (its last entry there) |
| Aggregation.KeptPathLastOccurrence | api/hmi_api/main.py:99 | the merged paths map a kept path to the item of its last kept occurrence |
| Aggregation.NoLaterKeptOccurrence | api/hmi_api/main.py:96-99 | no kept entry after the given one carries the same path when neither its document nor a later service keeps it again |
| Aggregation.SchemaFromEarliestService | api/hmi_api/main.py:92-95 | a schema name holds the definition of the earliest service defining it; no later service overrides it |
| Aggregation.FirstWinsKeys | api/hmi_api/main.py:93-95 | first-wins merging keeps every existing name and its value and adds exactly the new names |
| Aggregation.FirstWinsAt | api/hmi_api/main.py:93-95 | a new name takes the value of its first entry |
| Aggregation.LastWinsKeys | api/hmi_api/main.py:99 | last-wins merging adds exactly the entries' keys and leaves other keys unchanged |
| Aggregation.LastWinsAt | api/hmi_api/main.py:99 | a key takes the value of its last entry |
| Aggregation.AddTagsNames | api/hmi_api/main.py:103-106 | adding tags adds exactly the new names to the listed ones |
| Aggregation.AddTagsDistinct | api/hmi_api/main.py:103-106 | adding tags never creates a duplicate name and keeps the earlier list as a prefix |
| Aggregation.AddTagsOrder | api/hmi_api/main.py:103-106 | the tags built from nothing name only met names, in the order of their first occurrences |
| Aggregation.TagsDistinctInFirstOccurrenceOrder | api/hmi_api/main.py:100-106 | the merged tag list has no duplicate, names exactly the tags met, and orders them by first occurrence across services, paths and values |
| Aggregation.ItemTagsFromOperations | api/hmi_api/main.py:100-103 | a path item's tags are exactly those listed by its object values; non-objects and untagged objects add nothing |
| Aggregation.TagsFromKeptItems | api/hmi_api/main.py:96-103 | a tag occurs in the traversal exactly when some kept path item carries it |
| Aggregation.TagsFromKeptOperations | api/hmi_api/main.py:96-106 | a name is in the merged tags exactly when an operation object under a kept path of some fetched service lists it |
| Aggregation.AllKeptMembers | api/hmi_api/main.py:88-98 | an entry is kept across services exactly when some fetched service's document has it and keeps it |
| Aggregation.EmptyContributionIgnored | api/hmi_api/main.py:89-98 | a document that is missing or has neither schemas nor paths leaves the result as if its service were not listed |
| Aggregation.AllFetchesFailed | api/hmi_api/main.py:88-91 | when every fetch fails, the result is the bare envelope with no path, tag or schema |
| Aggregation.Envelope | api/hmi_api/main.py:107-119 | version `3.0.3`, the gateway marker, the title, the given app version, no servers, and a description that states the number of tags |
| Decimal.FromNat | api/hmi_api/main.py:113 | the tag count is written as decimal digits with no leading zero |
| Decimal.ToNatFromNat | api/hmi_api/main.py:113 | reading the written count back gives the count |
| Proxy.TargetPath | api/hmi_api/main.py:126 | the forwarded path starts with `/<service>` and is exactly that when the remainder is missing or empty |
| Proxy.TargetPathSplits | api/hmi_api/main.py:125-126 | the forwarded path can be read back as the service and the remainder, an empty remainder counting as none |
| Proxy.Gateway.constructor | api/hmi_api/main.py:11-80 | the application starts with its static mount and its own pages, in declaration order |
| Proxy.Gateway.AddApiRoute | api/hmi_api/main.py:144-154 | a registered route is appended after all earlier ones |
| Proxy.Gateway.RegisterProxyRoutes | api/hmi_api/main.py:142-155 | the loop appends the root route and the wildcard route of every service, in service order, and nothing else |
| Proxy.Startup | api/hmi_api/main.py:142-158 | importing the gateway yields its own routes followed by the proxy routes |
| Proxy.ProxyRoutesLayout | api/hmi_api/main.py:142-155 | two routes per service: `/<svc>` then `/<svc>/{rest:path}`, with the proxy methods |
| Proxy.ProxyRouteOfService | api/hmi_api/main.py:142-155 | every proxy route belongs to one of the services |
| Proxy.ProxyRoutesDisjoint | api/hmi_api/main.py:144-155 | no two proxy routes of plain, distinct service names match the same path |
| Proxy.RouteForMatches | api/hmi_api/main.py:130-139 | the route meant for a service path matches it and binds the remainder |
| Proxy.OwnRoutesMiss | api/hmi_api/main.py:26-80 | none of the gateway's own routes matches a path of a service it does not reserve |
| Proxy.OnlyMeantRouteMatches | api/hmi_api/main.py:142-155 | the only proxy route matching a service path is the one meant for it |
| Proxy.ProxyReachable | api/hmi_api/main.py:122-155 | a request to a registered service is handled by its proxy route for the five proxy methods and refused with 405 for others |
| Proxy.Forwarded | api/hmi_api/main.py:125-139 | a request is forwarded exactly when a proxy route handles it, to that route's service, at `/<svc>` for the root route and at `/<svc>/<rest>` for the wildcard route |
| Proxy.ForwardedByRoute | api/hmi_api/main.py:125-139 | a matching proxy route forwards to its own service at the request path (`/<svc>/` goes to `/<svc>`) |
| Proxy.ForwardedIsRequestPath | api/hmi_api/main.py:125-127 | every proxied request reaches a registered service at the very path it was made to, but for the trailing-slash root |
| Proxy.UnknownServiceNotFound | api/hmi_api/main.py:142-155 | a request for a path of an unregistered, unreserved service is answered 404 for every method |
| Routing.Dispatch | api/hmi_api/main.py:142-155 | a request is handled exactly when some registered route accepts its method and matches its path, and then by such a route with the binding it matched; a path-only match gives 405; with no match at all the answer is a redirect to the other trailing-slash spelling (never for `/`, and only when that spelling matches) or 404 |
| Routing.HandledByEarliest | api/hmi_api/main.py:142-155 | the route handling a request is the earliest one in registration order matching path and method |
| Routing.SoleMatch | api/hmi_api/main.py:142-155 | when one route alone matches a path, it handles the request or refuses its method |
| Crud.Paginate | api/shift_map/router.py:17-30 | limit over 500 gives 422, a negative skip or limit gives 500, and it succeeds exactly when skip is non-negative and limit is in 0..500, the page then being the `min(limit, rows after skip)` rows from `skip` on |
| Crud.PagesTile | api/shift_map/router.py:30 | the pages at `skip` and at `skip + n` together are the page of size `2n` at `skip` |
| Crud.SortedIds | api/shift_map/router.py:30 | `ORDER BY id`: every id once, strictly ascending |
| Crud.Select | api/shift_map/router.py:23-30 | the rows that pass the filter, and all of them, in ascending id order |
| Crud.SelectUnique | api/shift_map/router.py:23-30 | any ascending-id sequence of exactly the passing rows is the filtered listing |
| Crud.ListBy | api/shift_map/router.py:14-30 | the page is the window of the passing rows in ascending id order that starts at `skip` and holds `min(limit, rows after skip)` of them, each a stored row that passes the filter; it fails with 422 for a limit above 500 and with 500 for a negative skip or limit, and succeeds otherwise |
| Crud.ListByPage | api/shift_map/router.py:23-30 | a page of the passing rows holds stored passing rows, in ascending id order, and is their window starting at `skip` |
| Crud.ListComplete | api/shift_map/router.py:23-30 | with no skip and no more passing rows than the limit, every passing row is listed |
| Crud.Get | api/shift_map/router.py:33-38 | the stored row when the id exists, otherwise 404 with `<table> not found` |
| Crud.Table.Add | api/shift_map/router.py:50-52 | the row is stored under an id no stored row had, and nothing else changes |
| Crud.Table.Assign | api/shift_map/router.py:61-63 | the stored row becomes the result of applying each assignment in order; no other row changes |
| Crud.Table.Remove | api/shift_map/router.py:73-74 | the row is removed and nothing else changes |
| ShiftMap.List | api/shift_map/router.py:14-30 | listed rows are stored rows matching date, line and worker filters, in ascending id order, exactly the window of them that starts at `skip` and holds `min(limit, rows after skip)` rows; it fails with 422 for a limit above 500 and with 500 for a negative skip or limit, and succeeds otherwise |
| ShiftMap.Get | api/shift_map/router.py:33-38 | the stored row, or 404 `shift_map not found` exactly when the id is missing |
| ShiftMap.Create | api/shift_map/router.py:41-53 | 201 with the payload stored under a fresh id |
| ShiftMap.Update | api/shift_map/router.py:56-65 | 404 and no change for a missing id; 500 and no change when a required column is nulled; otherwise exactly the set fields change |
| ShiftMap.AssignmentsPatch | api/shift_map/router.py:61-62 | the `setattr` loop over the set fields gives the row with exactly those fields replaced |
| ShiftMap.Delete | api/shift_map/router.py:68-75 | 404 and no change for a missing id, otherwise 204 and only that row removed |
| DefectCodeMst.List | api/defect_code_mst/router.py:12-22 | listed rows are stored rows of the requested category, in ascending id order, exactly the window of them that starts at `skip` and holds `min(limit, rows after skip)` rows; it fails with 422 for a limit above 500 and with 500 for a negative skip or limit, and succeeds otherwise |
| DefectCodeMst.Get | api/defect_code_mst/router.py:25-30 | the stored row, or 404 `defect_code_mst not found` exactly when the id is missing |
| DefectCodeMst.Create | api/defect_code_mst/router.py:33-43 | 201 with the payload stored under a fresh id |
| DefectCodeMst.Update | api/defect_code_mst/router.py:46-55 | 404 and no change for a missing id; 500 and no change when the code is nulled; otherwise exactly the set fields change |
| DefectCodeMst.AssignmentsPatch | api/defect_code_mst/router.py:51-52 | the `setattr` loop over the set fields gives the row with exactly those fields replaced |
| DefectCodeMst.Delete | api/defect_code_mst/router.py:58-65 | 404 and no change for a missing id, otherwise 204 and only that row removed |
| PartsMst.List | api/parts_mst/router.py:12-22 | listed rows are stored rows of the requested equipment, in ascending id order, exactly the window of them that starts at `skip` and holds `min(limit, rows after skip)` rows; it fails with 422 for a limit above 500 and with 500 for a negative skip or limit, and succeeds otherwise |
| PartsMst.Get | api/parts_mst/router.py:25-30 | the stored row, or 404 `parts_mst not found` exactly when the id is missing |
| PartsMst.Create | api/parts_mst/router.py:33-45 | 201 with the payload stored under a fresh id, usage hours defaulting to zero |
| PartsMst.Update | api/parts_mst/router.py:48-57 | 404 and no change for a missing id; 500 and no change when a required column is nulled; otherwise exactly the set fields change |
| PartsMst.AssignmentsPatch | api/parts_mst/router.py:53-54 | the `setattr` loop over the set fields gives the row with exactly those fields replaced |
| PartsMst.Delete | api/parts_mst/router.py:60-67 | 404 and no change for a missing id, otherwise 204 and only that row removed |
| WorkOrder.List | api/work_order/router.py:12-18 | all stored rows in ascending id order, exactly the window of them that starts at `skip` and holds `min(limit, rows after skip)` rows; it fails with 422 for a limit above 500 and with 500 for a negative skip or limit, and succeeds otherwise |
| WorkOrder.Get | api/work_order/router.py:21-26 | the stored row, or 404 `work_order not found` exactly when the id is missing |
| WorkOrder.Create | api/work_order/router.py:29-42 | 201 with the payload stored under a fresh id |
| WorkOrder.Update | api/work_order/router.py:45-54 | 404 and no change for a missing id; 500 and no change when the order number is nulled; otherwise exactly the set fields change |
| WorkOrder.AssignmentsPatch | api/work_order/router.py:50-51 | the `setattr` loop over the set fields gives the row with exactly those fields replaced |
| WorkOrder.Delete | api/work_order/router.py:57-64 | 404 and no change for a missing id, otherwise 204 and only that row removed |
| DefectHis.List | api/defect_his/router.py:12-25 | listed rows are stored rows matching the production record and defect code filters, in ascending id order, exactly the window of them that starts at `skip` and holds `min(limit, rows after skip)` rows; it fails with 422 for a limit above 500 and with 500 for a negative skip or limit, and succeeds otherwise |
| DefectHis.Get | api/defect_his/router.py:28-33 | the stored row, or 404 `defect_his not found` exactly when the id is missing |
| DefectHis.Create | api/defect_his/router.py:36-46 | 201 with the payload stored under a fresh id, the quantity defaulting to 0 |
| StatusHis.List | api/status_his/router.py:14-30 | listed rows are stored rows matching the equipment and start-time bounds, in chronological order, exactly the window of `Ordered` (the matching rows by start time) that starts at `skip` and holds `min(limit, rows after skip)` rows; it fails with 422 for a limit above 500 and with 500 for a negative skip or limit, and succeeds otherwise |
| StatusHis.ListPage | api/status_his/router.py:23-30 | a page of the ordered rows is chronological and is their window starting at `skip` |
| StatusHis.ListPageRows | api/status_his/router.py:23-30 | a page of the ordered rows holds stored rows matching the equipment and start-time bounds |
| StatusHis.Get | api/status_his/router.py:33-38 | the stored row, or 404 `status_his not found` exactly when the id is missing |
| StatusHis.ByStartTime | api/status_his/router.py:30 | `ORDER BY start_time` rearranges the rows (same multiset) into chronological order |
| StatusHis.Insert | api/status_his/router.py:30 | inserting a row into a chronological sequence keeps it chronological and adds exactly that row |
| StatusHis.OrderedUnique | api/status_his/router.py:23-30 | any chronological arrangement of exactly the matching rows is the order the listing pages through |
| ProdHis.List | api/prod_his/router.py:12-25 | listed rows are stored rows matching the equipment and work order filters, in ascending id order, exactly the window of them that starts at `skip` and holds `min(limit, rows after skip)` rows; it fails with 422 for a limit above 500 and with 500 for a negative skip or limit, and succeeds otherwise |
| ProdHis.Get | api/prod_his/router.py:28-33 | the stored row, or 404 `prod_his not found` exactly when the id is missing |
| AlarmHis.List | api/alarm_his/router.py:12-22 | listed rows are stored rows of the requested equipment, in ascending id order, exactly the window of them that starts at `skip` and holds `min(limit, rows after skip)` rows; it fails with 422 for a limit above 500 and with 500 for a negative skip or limit, and succeeds otherwise |
| AlarmHis.Get | api/alarm_his/router.py:25-30 | the stored row, or 404 `alarm_his not found` exactly when the id is missing |
| MaintHis.List | api/maint_his/router.py:12-22 | listed rows are stored rows of the requested equipment, in ascending id order, exactly the window of them that starts at `skip` and holds `min(limit, rows after skip)` rows; it fails with 422 for a limit above 500 and with 500 for a negative skip or limit, and succeeds otherwise |
| MaintHis.Get | api/maint_his/router.py:25-30 | the stored row, or 404 `maint_his not found` exactly when the id is missing |

## Left out

- Network I/O: fetching each service's document and forwarding a request are not modelled. The fetch results are an input; `hmi_api/proxy.py` is not part of this model. The model states which service and path a request is forwarded to, not the response.
- Concurrency: `async` handlers are modelled as sequential code.
- The bodies of the page, static, health and info handlers are not modelled. Only their routes take part in dispatch.
- Dictionary key order: the merged `paths` and `components.schemas` are maps. The order of the `tags` list is kept.
- JSON values of the wrong type inside a fetched document are not modelled. The handler treats a falsy value of any type (`[]`, `""`, `0`, `false`, `null`) for `components`, `schemas`, `paths`, a path item or `tags` as empty. It iterates a truthy string `tags` character by character and a truthy object `tags` by key, and raises on a truthy number there. It raises on a truthy `paths`, `components`, `schemas` or path item that is not an object, and on a tag that is an object or a list. The model's documents hold only objects there and lists of strings for `tags`. Non-object values under a path item are modelled; they are skipped.
- JSON objects are sequences of entries, and the model does not require their keys to be distinct. A decoded object with a repeated key keeps the key at its first position with its last value; the model keeps both entries, so a path item's tags are collected from both.
- Request validation is not modelled: bodies and query values of the wrong type are answered 422 by the framework. Only the `limit <= 500` bound is modelled.
- `APP_VERSION` and `TABLE_SERVICES` are parameters; `hmi_api/config.py` is not part of this model.
- The database session is a map from id to row plus an id counter. SQL types, constraints other than the required columns, transactions and the database's own error text are not modelled. A negative `OFFSET` or `LIMIT` is answered with a generic 500.
- ShiftMap.Update: assumes the required columns are `NOT NULL` in the database, so a request setting one to null fails at commit with 500 and no change. `shared/models.py` is not part of this model.
- DefectCodeMst.Update: the same `NOT NULL` assumption for `defect_code`.
- PartsMst.Update: the same `NOT NULL` assumption for `equip_id`, `part_name` and `current_usage_hours`.
- WorkOrder.Update: the same `NOT NULL` assumption for `order_no`.
- StatusHis.List: the database leaves the order of rows with the same start time unspecified. The model breaks such ties by id, so it fixes one of the orders the database may choose.
- The columns of `status_his`, `alarm_his` and `maint_his` beyond those their routers filter or sort on are one opaque value, because their schemas are not part of this model.
- Floating-point columns (`parts_mst` hours) are opaque 64-bit patterns; no arithmetic is done on them, and `0` (the create default) is the only value the model names.
- Request paths holding a newline are not modelled: the framework's path pattern does not match across one.
- Service names that are not a single path segment, that hold a route-parameter brace, or that coincide with the gateway's own pages (`static`, `swagger`, `docs`, `feature-usage`, `health`, `info`, `openapi.json`) are excluded from the forwarding results.
