# Stakeholder relationship graph: repository and transactional service

This project models the stakeholder directory's data-access core in Dafny:

- **The data.** Two tables: `stakeholder` rows keyed by `id`, and `stakeholder_relation` edges `(parent_id, child_id, role, type)`. Duplicate edges are allowed.
- **The read queries of `StakeholderRepository`.** The root listing, the by-id listing, parent and child lookups, the one-hop tree, related ids, relations, and the two filters. Each is a function over the two tables that restates the knex query relationally: joins, WHERE, ORDER BY, LIMIT and OFFSET, and COUNT.
- **The mutators of `StakeholderRepository`.** Create, delete and update of a stakeholder, and insert and delete of a relation. Each is a pure transformation that yields the new tables and the returned row, or the error the repository raises. The class `Repository.StakeholderRepository` applies them in place to the tables of a shared session.
- **The write protocol of `StakeholderService`.** Begin, one or two repository writes, commit, and on any error a rollback guarded by `isTransactionInProgress()` before the error is rethrown. The session (`Session.Session`) has the states `Idle`, `Active`, `Committed` and `RolledBack`. Begin takes a snapshot of the tables and rollback restores it. A ghost log of begin, commit and rollback events records that transactions stay balanced.

Behaviours of the code that the model keeps as written:

- **Listing pagination.** getAllStakeholders and getAllStakeholdersById never apply an OFFSET. A truthy `offset` is passed to a second `.limit()` and replaces the limit.
- **Filter pagination.** The filters apply the offset, but the same second `.limit()` still makes a truthy `offset` the limit.
- **getAllStakeholdersById** repeats its stakeholder once per parent edge, because of the left join on `child_id`.
- **getFilter** reads `limitOptions.limit` without a guard. A missing `limitOptions` raises before any query.
- **getFilterById** treats every filter key as a column. A `search` key therefore fails the count query.
- **getStakeholderTreeById** on an unknown id sets a field of `undefined`, which raises.
- **getRelations** has an `.orWhereNull('id')` that has no effect, because `id` is the primary key.

Outside forces become parameters:

- The model layer between the service and the repository (`server/models/Stakeholder`) is not part of this model. Each of its calls is a translation function passed to the service method, and it may fail.
- Whether the connection fails at begin or at commit is a `Faults` parameter.

## Model

| member | source | states |
|---|---|---|
| Pagination.ListingWindow | server/repositories/StakeholderRepository.js:58-63 | The builder of the listings never records an OFFSET. Its limit is `offset` when that is truthy, else `limit` when truthy, else none. |
| Pagination.FilterWindow | server/repositories/StakeholderRepository.js:198-207 | The filters' builder records `offset` (0 when absent). Its limit is `offset` when that is truthy, else the given `limit`. |
| Pagination.Paginate | server/repositories/StakeholderRepository.js:199-200 | A page is the ordered rows from the offset on, cut to at most the limit. Its length and every element are fixed by the offset and the limit. |
| Pagination.PrefixPage | server/repositories/StakeholderRepository.js:58-63 | Without an OFFSET, a page is a prefix of the ordered result. |
| Ordering.SortByOrgName | server/repositories/StakeholderRepository.js:56 | ORDER BY org_name ASC is sorted by org_name and is a permutation of its input (same multiset, same length). |
| Ordering.Insert | server/repositories/StakeholderRepository.js:56 | Inserting into a sorted sequence keeps it sorted and adds exactly that row. |
| Ordering.SortedSlice | server/repositories/StakeholderRepository.js:58-63 | A LIMIT/OFFSET window of a sorted result is sorted. |
| Text.LessEqTotal | server/repositories/StakeholderRepository.js:56 | The org_name order compares any two names. |
| Text.LessEqTransitive | server/repositories/StakeholderRepository.js:56 | The org_name order is transitive. |
| Text.LessEqAntisymmetric | server/repositories/StakeholderRepository.js:56 | The org_name order is antisymmetric, so it is a total order. |
| Text.ContainsAt | server/repositories/StakeholderRepository.js:178 | The `%fragment%` match holds exactly when the fragment occurs at some position. |
| Text.ILikeEmpty | server/repositories/StakeholderRepository.js:178 | `ILIKE '%%'` matches every value. |
| Schema.Find | server/repositories/StakeholderRepository.js:41-47 | `.where('id', id).first()` returns a stored row with that id, and returns nothing exactly when no row has that id. |
| Schema.FindStored | server/repositories/StakeholderRepository.js:41-47 | Under the primary key, the lookup of a stored row's id returns that row. |
| Schema.UniqueIdsMultiplicity | server/repositories/StakeholderRepository.js:41-47 | Under the primary key, every stored row occurs exactly once. |
| StakeholderQueries.WhereIdJoin | server/repositories/StakeholderRepository.js:79-84 | Under the primary key, `WHERE s.id = id` on a join keeps exactly the join block of the stakeholder with that id. It keeps nothing when that id is not stored. |
| StakeholderQueries.RootRowsAreUnparented | server/repositories/StakeholderRepository.js:51-55 | The LEFT JOIN on child_id with `whereNull('sr.child_id')` keeps each stakeholder without a parent edge once, in table order. It drops every other stakeholder, however many edges there are. |
| StakeholderQueries.RootListingSpec | server/repositories/StakeholderRepository.js:49-56 | The root listing is sorted by org_name. It holds every stored stakeholder that is no edge's child exactly once, and nothing else. |
| StakeholderQueries.GetAllStakeholders | server/repositories/StakeholderRepository.js:49-75 | The count is the size of the whole stakeholder table, roots and children alike. The page is no longer than the root listing. |
| StakeholderQueries.GetAllStakeholdersPage | server/repositories/StakeholderRepository.js:58-74 | A page is a sorted prefix of the root listing (no OFFSET). Its length is the effective limit (`offset` if truthy, else `limit` if truthy, else unbounded), capped by the listing. The count does not depend on the options. |
| StakeholderQueries.CountWithIdSpec | server/repositories/StakeholderRepository.js:96-99 | Under the primary key, `count(*) where id = ?` is 1 when the id is stored and 0 otherwise. |
| StakeholderQueries.ByIdRowsSpec | server/repositories/StakeholderRepository.js:79-101 | The by-id join yields the addressed stakeholder once per edge in which it is the child, or once when it has none. It yields nothing for an unknown id, and the count is 1 or 0 accordingly. |
| StakeholderQueries.GetAllStakeholdersByIdSpec | server/repositories/StakeholderRepository.js:77-102 | Every row of a by-id page is the stored stakeholder with that id. The count is at most 1, and both the page and the count are empty for an unknown id. The page length is the effective limit (`offset` if truthy, else `limit` if truthy, else unbounded), capped by the number of by-id rows. |
| StakeholderQueries.JoinedEdgesSpec | server/repositories/StakeholderRepository.js:128-132 | The inner join restricted to `s.id = id` yields the edges joining that id, in table order with duplicates. It yields nothing when the id is not stored. |
| StakeholderQueries.GetParentIdsSpec | server/repositories/StakeholderRepository.js:127-135 | The parent ids are the `parent_id` of every edge whose child is `id`, one per edge in table order, duplicates kept. They are empty for an unknown id. A value occurs in them exactly when it is a parent of the stored `id`. |
| StakeholderQueries.GetChildrenIdsSpec | server/repositories/StakeholderRepository.js:150-158 | The child ids are the `child_id` of every edge whose parent is `id`, one per edge, duplicates kept. They are empty for an unknown id. A value occurs in them exactly when the stored `id` has an edge to it. |
| StakeholderQueries.GetParents | server/repositories/StakeholderRepository.js:137-148 | The parents are sorted by org_name. |
| StakeholderQueries.GetChildren | server/repositories/StakeholderRepository.js:160-172 | The children are sorted by org_name. |
| StakeholderQueries.FetchSpec | server/repositories/StakeholderRepository.js:141-145 | Under the primary key, a `whereIn` fetch sorted by org_name yields every stored row that satisfies the condition exactly once, and nothing else. |
| StakeholderQueries.GetParentsSpec | server/repositories/StakeholderRepository.js:137-148 | getParents yields each stored parent of the child exactly once, and nothing else. It yields `[]` when no edge has the child as its child. |
| StakeholderQueries.GetChildrenSpec | server/repositories/StakeholderRepository.js:160-172 | getChildren of a stored parent yields each stored child exactly once, even with duplicate edges, and nothing else. It yields `[]` when the parent has no outgoing edge. |
| StakeholderQueries.ChildrenDedupRedundant | server/repositories/StakeholderRepository.js:162-168 | Passing the child ids through a `Set` before `whereIn` yields the same rows as using the raw ids. |
| StakeholderQueries.GetStakeholderTreeById | server/repositories/StakeholderRepository.js:105-125 | The tree succeeds exactly when the id is stored, and then holds one node carrying that id. An unknown id fails, as the write to a field of `undefined` does. |
| StakeholderQueries.GetStakeholderTreeByIdSpec | server/repositories/StakeholderRepository.js:105-125 | Under the primary key, the tree's count is 1. Its node is the stored row with its one-hop parents and children, with no recursion. |
| StakeholderQueries.EndpointsMembers | server/repositories/StakeholderRepository.js:309-312 | The visited ids are exactly the parent and child ends of the visited edges. |
| StakeholderQueries.RelatedIds | server/repositories/StakeholderRepository.js:307-314 | The `Set` of related ids, listed in insertion order, has no duplicates. |
| StakeholderQueries.RelatedIdsSpec | server/repositories/StakeholderRepository.js:295-315 | The related ids are duplicate-free. They are exactly the endpoints of the edges that touch a stored `id` in either direction. They contain `id` itself exactly when such an edge exists, and they are empty exactly when there is none or the id is not stored. |
| Repository.StakeholderRepository.GetRelatedIds | server/repositories/StakeholderRepository.js:295-315 | The `forEach` loop that adds both endpoints of every joined edge to a `Set` computes exactly RelatedIds. |
| StakeholderQueries.GetRelations | server/repositories/StakeholderRepository.js:317-334 | The relations are sorted by org_name. |
| StakeholderQueries.FetchSingle | server/repositories/StakeholderRepository.js:321-326 | A fetch that only one stored row satisfies yields that row alone. |
| StakeholderQueries.GetRelationsSpec | server/repositories/StakeholderRepository.js:317-334 | getRelations lists every stored stakeholder whose id is related or is the subject, each exactly once, and nothing else. The count is the number of rows listed, and the subject is listed whenever it is stored. With no touching edge, the listing is the subject alone (or empty for an unknown id). |
| StakeholderQueries.RelationsAlone | server/repositories/StakeholderRepository.js:317-326 | Without a touching edge, getRelations fetches only the subject's own row. |
| StakeholderQueries.WhereBuilderSpec | server/repositories/StakeholderRepository.js:175-192 | A row matches the filter exactly when three things hold. It equals every column key other than org_name. Its org_name contains the org_name key case-insensitively, and an absent key matches all. The search is empty or one of the seven searched columns contains it case-insensitively. |
| StakeholderQueries.EmptyCriteriaMatchAll | server/repositories/StakeholderRepository.js:176-189 | An empty filter matches every row. |
| StakeholderQueries.FilterListing | server/repositories/StakeholderRepository.js:194-198 | The matching rows are sorted by org_name. |
| StakeholderQueries.GetFilter | server/repositories/StakeholderRepository.js:174-217 | getFilter fails exactly when `limitOptions` is missing, with that error. |
| StakeholderQueries.FilterPage | server/repositories/StakeholderRepository.js:199-207 | Under the filters' window, a page of a sorted result starts at the offset and is sorted. It is at most `offset` rows long when that is truthy, and at most `limit` rows otherwise. |
| StakeholderQueries.GetFilterSpec | server/repositories/StakeholderRepository.js:174-217 | getFilter lists each stored matching row exactly once and nothing else, and pages that list at the offset. It counts all matching rows, and the count does not depend on the pagination. |
| StakeholderQueries.GetFilterById | server/repositories/StakeholderRepository.js:219-247 | getFilterById fails exactly when `limitOptions` is missing or the filter has a `search` key. The first takes precedence. |
| StakeholderQueries.GetFilterByIdSpec | server/repositories/StakeholderRepository.js:219-247 | The rows are the stored stakeholders whose id is related and that equal every filter key exactly (org_name included), each once. The page starts at the offset, and the count ignores pagination. A stakeholder without edges gets an empty listing, itself included. |
| StakeholderMutations.InsertRow | server/repositories/StakeholderRepository.js:249-262 | The insert succeeds exactly when the id is free, otherwise it fails with CreateFailed. On success it returns the row, which is then found under its id. No other id's lookup changes, the table grows by one, the edges are untouched and the key stays unique. |
| StakeholderMutations.DeleteRow | server/repositories/StakeholderRepository.js:264-278 | Without `object.id` the delete fails. Otherwise it succeeds exactly when that id is stored, else it fails with DeleteFailed. On success it returns the stored row, which is then gone. No other id's lookup changes, the edges are untouched and the key stays unique. |
| StakeholderMutations.FindRemove | server/repositories/StakeholderRepository.js:265-269 | Deleting the rows of one id removes that id's lookup only and keeps the primary key. |
| StakeholderMutations.ApplyPatch | server/repositories/StakeholderRepository.js:284 | `update(object)` sets every column the object names to its value and leaves the others. |
| StakeholderMutations.UpdateRow | server/repositories/StakeholderRepository.js:280-293 | Without `object.id` the update fails. Otherwise it succeeds exactly when that id is stored, else it fails with UpdateFailed. On success the returned row is the stored row with the object applied, and is then found under that id. No other id's lookup changes, the edges are untouched and the key stays unique. |
| StakeholderMutations.InsertEdge | server/repositories/StakeholderRepository.js:357-366 | The relation insert succeeds exactly when both endpoints are stored, otherwise it fails with RelationCreateFailed. On success it appends the edge and returns it. |
| StakeholderMutations.DeleteEdges | server/repositories/StakeholderRepository.js:368-382 | The relation delete succeeds exactly when some edge matches every field of the object, otherwise it fails with RelationDeleteFailed. On success the edges left are exactly the old ones that do not match, and the returned edge is a matching one. |
| StakeholderMutations.DeleteEdgesPartition | server/repositories/StakeholderRepository.js:368-373 | The removed and the kept edges together are the old relation table. |
| StakeholderMutations.DeleteEdgesExhausts | server/repositories/StakeholderRepository.js:368-382 | Repeating the same relation delete finds nothing and fails. |
| StakeholderMutations.InsertThenDelete | server/repositories/StakeholderRepository.js:249-278 | Inserting a row and then deleting it by its id gives back the original tables and returns the row. |
| StakeholderMutations.UpdateIdempotent | server/repositories/StakeholderRepository.js:280-293 | Applying the same update a second time changes nothing and returns the same row. |
| StakeholderMutations.PatchTwice | server/repositories/StakeholderRepository.js:284 | Applying an update object twice to a row equals applying it once. |
| StakeholderMutations.InsertedEdgeVisible | server/repositories/StakeholderRepository.js:137-172 | After a relation insert, the child is among the parent's children and the parent is among the child's parents. |
| Repository.StakeholderRepository.CreateStakeholder | server/repositories/StakeholderRepository.js:249-262 | The session's tables become exactly the insert's new tables and the inserted row is returned. On failure the error is returned and the tables are untouched. |
| Repository.StakeholderRepository.DeleteStakeholder | server/repositories/StakeholderRepository.js:264-278 | The session's tables become exactly the delete's new tables and the deleted row is returned. On failure the error is returned and the tables are untouched. |
| Repository.StakeholderRepository.UpdateStakeholder | server/repositories/StakeholderRepository.js:280-293 | The session's tables become exactly the update's new tables and the updated row is returned. On failure the error is returned and the tables are untouched. |
| Repository.StakeholderRepository.CreateRelation | server/repositories/StakeholderRepository.js:357-366 | The session's tables become exactly the relation insert's new tables and the edge is returned. On failure the error is returned and the tables are untouched. |
| Repository.StakeholderRepository.DeleteRelation | server/repositories/StakeholderRepository.js:368-382 | The session's tables become exactly the relation delete's new tables and a deleted edge is returned. On failure the error is returned and the tables are untouched. |
| Session.ClosedDirectlyAfterBegan | server/services/StakeholderService.js:32-37 | In a balanced log every commit and rollback directly follows the begin it closes. There is no rollback after a commit, no second rollback, and no two begins in a row. A transaction is open exactly when the log ends with a begin. |
| Session.Session.IsTransactionInProgress | server/services/StakeholderService.js:33 | True exactly while the session is Active. |
| Session.Session.BeginTransaction | server/services/StakeholderService.js:20 | When begin succeeds, the session becomes Active with a snapshot of the current tables and a Began event. When it fails, nothing changes. |
| Session.Session.CommitTransaction | server/services/StakeholderService.js:29 | When commit succeeds, it keeps the tables and becomes Committed with a Commit event. When it fails, the transaction stays Active. |
| Session.Session.RollbackTransaction | server/services/StakeholderService.js:34 | Rollback restores the snapshot taken at begin and becomes RolledBack with a Rollback event. |
| Service.RefreshedSpec | server/services/StakeholderService.js:31 | With a truthy id, the listing returned after a commit holds only the stored stakeholder with that id, with count at most 1. Without one, it is the whole root listing with the table size as count. |
| Service.CreateWritesSpec | server/services/StakeholderService.js:21-28 | Successful create writes store the model layer's row under a previously free id and change no other stakeholder. They append the model layer's edge for that row, whose two ends are stored. |
| Service.CreateWritesKeepKey | server/services/StakeholderService.js:21-28 | Successful create writes keep `id` a key. |
| Service.DeleteWritesSpec | server/services/StakeholderService.js:43-48 | Successful delete writes remove the stakeholder that `requestObject.data` addresses, and nobody else. They remove exactly the edges that match the relation pattern, of which there was at least one. Every other edge keeps its multiplicity, duplicates included. |
| Service.DeleteWritesKeepKey | server/services/StakeholderService.js:43-48 | Successful delete writes keep `id` a key. |
| Service.UpdateWritesSpec | server/services/StakeholderService.js:63-67 | A successful update rewrites only the addressed stakeholder, returns it as stored, and leaves the edge table untouched. |
| Service.UpdateWritesKeepKey | server/services/StakeholderService.js:63-67 | A successful update keeps `id` a key. |
| Service.StakeholderService.constructor | server/services/StakeholderService.js:5-8 | The service and its repository share one fresh Idle session over the given tables. |
| Service.StakeholderService.Abort | server/services/StakeholderService.js:32-37 | The catch block rolls back, back to the snapshot, only when a transaction is in progress. Otherwise it changes nothing, and in both cases it rethrows the error unchanged. |
| Service.StakeholderService.Close | server/services/StakeholderService.js:29-37 | A successful commit keeps the tables. A failed commit is rolled back to the snapshot and reports CommitFailed. |
| Service.StakeholderService.CreateSteps | server/services/StakeholderService.js:21-28 | The two repository writes of a create succeed exactly when the create writes do. They then leave their tables, and otherwise they report their first error. |
| Service.StakeholderService.CreateTransaction | server/services/StakeholderService.js:19-37 | The create commits exactly when begin, both writes and commit succeed, and the committed tables are those of the writes. Every failure leaves both tables as they were before begin, rethrows the first error, and logs a rollback unless begin itself failed. |
| Service.StakeholderService.CreateStakeholder | server/services/StakeholderService.js:18-38 | After a committed create, the result is the by-id listing when the id is truthy and the root listing otherwise. Failures are as in CreateTransaction. |
| Service.StakeholderService.DeleteSteps | server/services/StakeholderService.js:44-48 | The stakeholder delete and the relation delete succeed exactly when the delete writes do. They then leave their tables, and otherwise they report their first error. |
| Service.StakeholderService.DeleteTransaction | server/services/StakeholderService.js:41-57 | The delete commits exactly when begin, both deletes and commit succeed. A failure of either delete or of the commit leaves both tables as they were, rethrows the error, and logs a rollback. |
| Service.StakeholderService.DeleteStakeholder | server/services/StakeholderService.js:40-58 | After a committed delete, the result is the by-id listing when the id is truthy and the root listing otherwise. Failures are as in DeleteTransaction. |
| Service.StakeholderService.UpdateSteps | server/services/StakeholderService.js:64-67 | The update through the model layer succeeds exactly when the update writes do. It then returns the updated row, and otherwise their error. |
| Service.StakeholderService.UpdateStakeholder | server/services/StakeholderService.js:60-77 | The commit follows a successful update only, and the result is the updated row. The committed tables are the update's, so the edge table is untouched. Every failure leaves the tables as they were before begin and rethrows the first error. |

## Left out

- `getStakeholderByOrganizationId` (server/repositories/StakeholderRepository.js:12-31): it calls the database function `getEntityRelationshipChildren`, whose definition is not part of this model.
- `getById` is modelled only as the lookup `Schema.Find` used by the other queries.
- The service's pass-through reads `getAllStakeholders` and `getAllStakeholdersById` (server/services/StakeholderService.js:10-16) go through the model layer, which is not part of this model. The refresh after a commit is modelled as the repository listing with no options.
- The model layer `server/models/Stakeholder` and the session `server/database/Session` are not part of this model:
  - the model layer's translations are function parameters that may fail;
  - the session is modelled from the calls the service makes on it.
- Connection configuration (server/database/knex.js) and the seed data (database/seeds/seed_stakeholder_relations.js) hold no logic. The model allows the duplicate edges the seeds contain.
- Collation and ILIKE locale rules:
  - ORDER BY org_name uses plain character-code order;
  - the case-insensitive match lowers ASCII letters only;
  - `%` and `_` inside a filter value are matched literally rather than as wildcards;
  - the database leaves the order of rows with equal org_name open. The model breaks such ties by table order, and the page contracts (StakeholderQueries.GetAllStakeholdersPage, StakeholderQueries.FilterPage) are stated relative to that order. When ties straddle a LIMIT cut, the database may put different rows on the page.
- Columns are never NULL. Under SQL, an `ILIKE` on a NULL column is not true, so rows with NULL columns are not covered.
- getAllStakeholdersById is always given an id here. Its default `id = null` (line 77) is not modelled: it would turn `where('s.id', null)` into `IS NULL`, which yields no rows and a count of 0.
- getFilter is always given a filter object here. With an undefined `filter`, the destructuring in `whereBuilder` (line 176) raises a TypeError; that error path is not modelled.
- Negative or non-integer `limit`/`offset` values are not modelled. Options are natural numbers or absent.
- getFilterById: at line 238 the page is not awaited, so the returned `stakeholders` is the pending query rather than its rows. The model returns the rows the query would yield.
- `expect-runtime` array matching of the returned rows is not modelled. A statement fails exactly when it returns no row.
  - The `expect-runtime` library is not part of this model. If its `.match([{…}])` also compares array lengths, as a jest-style object match does, then the code differs from the model for deleteRelation (lines 375-379): it fails whenever two or more edges match, which is exactly the case of duplicate edges. This is not established here, and the model lets such a delete succeed.
- Foreign keys on delete are not modelled. Deleting a stakeholder that edges still reference is allowed, and only the relation insert checks that both endpoints are stored.
- A failing rollback, concurrency between requests and transaction isolation belong to the database and are not modelled.
- The conditional reassignment of the query builder (lines 58-63, 202-207, 231-236) is modelled as a chain of values (`ListingWindow`, `FilterWindow`) rather than as a reassigned variable.
- Session.Session.CommitTransaction: a commit that fails is assumed to leave the transaction in progress, so that the service's guard rolls it back. The session's own code is not part of this model.
- StakeholderQueries.GetFilterByIdSpec: its listing properties are stated for filters without a `search` key, the only ones for which getFilterById returns rows.
