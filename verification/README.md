# Verified models of the gateway's data layer and audit gate

This project models the parts of the repository whose correctness is hardest to see from
one function at a time, and proves what they promise for every input and every run:

- **Bulk create** (`BulkCreate`, `BulkCreateTheorems`, `BulkCreatePromises`): the recursive mutator
  chain of `AccountCreateBulk.Save` and `AccountGroupCreateBulk.Save`. Hooks are data: how often they
  call the next mutator, how they edit or replace the mutation before and after, and how they turn the
  outcomes below them into their own. Mutations are pointers into an explicit store, because hooks edit them in
  place. The imperative `Saver` is proved equal to a recursive run function, and the theorems are
  about that function.
- **Eager loading** (`EagerLoad`, `EagerLoadTheorems`): the hash joins that fill edges after the
  main query, as loops over heap nodes, proved against nested-loop joins. The foreign-key column and
  the edge are parameters, so one loader stands for all generated siblings of its kind.
- **Query builder** (`QueryBuilder`, `QueryBuilderTheorems`): a builder with Go slices as array,
  length and capacity, nested eager builders, `append` that writes into spare capacity, and a
  recursive `Clone`; then the bounded fetches, on builder objects and on what they mean.
- **From cells to edges** (`JoinScan`): the rewritten row scanner of the many-to-many load, which
  connects the row codec to the join.
- **Column selection** (`ColumnSelection`): `Select` lists, the columns `querySpec` adds, and what
  they mean for loaded edges.
- **Row codec and account creation** (`RowCodec`, `AccountCreate`): `scanValues`, `assignValues`,
  `defaults`, `check`, `createSpec`, and the round trip through a stored row.
- **Audit gate** (`AuditParser`, `AuditGate`, `AuditReportTheorems`, `AuditGateTheorems`): the
  exception-file parser with a printer it undoes, the findings iterator, the exception index and the
  deduplicating scan.

Code that works by updating things step by step is a method with loops or a class whose methods
state their whole new state; each is tied to a specification function, and the theorems are lemmas
about those functions. `dafny verify dfyconfig.toml` checks everything.

## Where a promise does not hold

In these places the code does not keep the general promise. The model keeps the code as it is, and
the named lemmas give the exact condition or a concrete failing case.

- Bulk `Save` checks a builder's own mutation before it takes over the one a hook handed down, so a
  hook that replaces the mutation gets an unchecked row inserted.
  (`CheckedExactlyWhenSentIsOwn`, `ReplacedRowIsUnchecked`)
- A single `Save` takes over first and then checks, and it returns when defaulting fails, which the bulk
  `Save` ignores. (`BulkOfOneAgreesWithSingle`, `FilledByHookOnlyInBulk`)
- Hooks that skip `next`, or swallow its error, and return nil make `Save` report success with nothing
  stored, and leave done marks that are no suffix. (`NilErrorMeansStoredExactlyWhen`,
  `DoneSuffixExactlyWhen`, `NilErrorMeansAllDoneExactlyWhen`, `SkippingHookLosesRows`)
- Of parent nodes that share an ID only the last receives its edges.
  (`JoinRefinedExactlyWhenIdsDistinct`)
- Loaders add their ID list to the stored child builder and never remove it, so executing one builder
  for a second page loses the children of parents that were not on the first page, and finds no proxy
  whose key the first page did not ask for. (`SecondPageSeesOnlyFirst`, `LoadTwoPages`, `LoadOneTwice`)
- `Unique` together with a `Select` that omits the group key collapses account-group rows, which have
  no ID column. (`UniqueSelectKeepsRowsExactlyWhen`)
- `Clone` does not copy row-lock modifiers. (`CloneExactlyWhenLockFree`)
- `Only` leaves its limit of two on the builder (`OnlyLeavesItsLimit`), an earlier `Select` makes
  `OnlyID` and `Exist` scan several columns as IDs (`IDFetchesAgreeExactlyWhen`), and `Exist` may be true
  while `First` fails to load an edge (`ExistExactlyWhenFirst`).
- The audit scan compares an exception's severity with the first finding of each key only, so the
  order of findings can change the verdict. (`OrderMatters`, `OrderBlindExactlyWhenAgree`)
- Some reports and exception files make the audit gate raise instead of deciding; a numeric `source` as
  the only title of a "via" item is a case. (`GateRaisesExactlyWhen`, `NumericTitleRaises`)

## Model

| member | source | states |
|---|---|---|
| `BulkCreate.Saver.constructor` | backend/ent/account_create.go:1923-1930 | the shared slices start empty, one slot per builder, with the defaulted mutation of each |
| `BulkCreate.Saver.Mutate` | backend/ent/account_create.go:1964-1974 | calling mutator i leaves exactly the state and outcome of the recursive run function, what a hook does after its calls included |
| `BulkCreate.Saver.CallFrom` | backend/ent/account_create.go:1964-1967 | a hook's calls of the next mutator happen in order, each on the state the previous one left |
| `BulkCreate.Saver.CallNext` | backend/ent/account_create.go:1964-1967 | one call: the edit is in place, the mutation handed on is the same pointer or a new object |
| `BulkCreate.Saver.Inner` | backend/ent/account_create.go:1930-1963 | the closure: check, takeover, spec, next mutator or batch, then ID and done, as one state change |
| `BulkCreate.Saver.InsertBatch` | backend/ent/account_create.go:1943-1952 | the batch receives all specs as they stand; IDs are written only when it was stored |
| `BulkCreate.Save` | backend/ent/account_create.go:1919-1976 | a bulk builder with an error returns it with every mutation as it was; otherwise state and outcome are those of the run function; an empty bulk inserts nothing |
| `BulkCreateTheorems.HooksEffect` | backend/ent/account_create.go:1930-1974 | from any point of the chain on: the batch issued, the entities and the IDs in the slots, in closed form, and which mutations and slots stay unchanged |
| `BulkCreateTheorems.InnerEffect` | backend/ent/account_create.go:1930-1963 | the same for the closure under the hooks |
| `BulkCreateTheorems.BatchExactlyWhen` | backend/ent/account_create.go:1919-1976 | with hooks that call next at most once there is exactly one batch, holding every builder's spec in builder order, if every hook passes and every check succeeds; otherwise there is none |
| `BulkCreateTheorems.HooksEnd` | backend/ent/account_create.go:1930-1967 | from any point on, for any hooks that call next at most once: the outcome is the fold of the hooks over what lies under them, builder j is done if and only if its closure was reached and returned no error, and done nodes carry the stored IDs |
| `BulkCreateTheorems.SaveEnds` | backend/ent/account_create.go:1919-1976 | the same for a whole save: outcome, done marks, mutation IDs that are those of the nodes, and nodes built from the fields that reached them with the ID the driver reported |
| `BulkCreateTheorems.SaveLeaves` | backend/ent/account_create.go:1919-1976 | what every builder's own mutation holds after a save: its fields as its hooks left them, before and after their calls, or its defaults if it was never entered |
| `BulkCreatePromises.DoneSuffix` | backend/ent/account_create.go:1941-1975 | with honest hooks: done mutations form a suffix, a non-empty suffix means the one batch was stored, a nil error means all are done, and each done node is built from the fields that reached it and has the ID the driver reported |
| `BulkCreatePromises.BreaksExactlyWhenMasked` | backend/ent/account_create.go:1930-1975 | builder j is done and builder j+1 is not, if and only if builder j+1 is entered and its hooks report success over a failure |
| `BulkCreatePromises.DoneSuffixExactlyWhen` | backend/ent/account_create.go:1930-1975 | the done mutations form a suffix if and only if no builder after the first that is entered reports success over a failure |
| `BulkCreatePromises.NilErrorMeansAllDoneExactlyWhen` | backend/ent/account_create.go:1930-1975 | a suffix, and all of them on a nil error, if and only if no builder that is entered does |
| `BulkCreatePromises.LastDoneExactlyWhenStored` | backend/ent/account_create.go:1941-1963 | the last builder is done if and only if the batch was issued and stored, so a non-empty suffix means it was |
| `BulkCreatePromises.CheckedExactlyWhenSentIsOwn` | backend/ent/account_create.go:1935-1940 | every row a save inserts passes the check, whatever the check is, if and only if a hook never lets the run through or each mutation sent has the fields of some checked one |
| `BulkCreatePromises.ReplacedRowIsUnchecked` | backend/ent/account_create.go:1935-1940 | concrete run: a replaced mutation is inserted although the check refuses it |
| `BulkCreatePromises.SameSendsOwn` | backend/ent/account_create.go:1935-1940 | hooks that hand on the mutation they got send exactly what is checked |
| `BulkCreatePromises.SingleInsertsExactlyWhen` | backend/ent/account_create.go:435-440 | a single save inserts if and only if defaulting succeeded, every hook passes and the mutation that reached it is valid |
| `BulkCreatePromises.BulkOfOneAgreesWithSingle` | backend/ent/account_create.go:435-440 | bulk of one and single save insert the same rows, for every check, if and only if the hooks never let the run through, or defaulting succeeded and the sent fields equal the checked ones |
| `BulkCreatePromises.NilErrorMeansStoredExactlyWhen` | backend/ent/account_create.go:1930-1975 | for any builders, hooks and check: success implies a stored batch under every driver if and only if the folded outcome of every driver error is an error |
| `BulkCreatePromises.SilentExactlyWhen` | backend/ent/account_create.go:1930-1975 | for a given driver: success with nothing stored, if and only if the folded reply is success and the batch was not issued or not stored |
| `BulkCreatePromises.HonestNeverSilent` | backend/ent/hook/hook.go:552-571 | hooks that report success only after a successful call of next never hide a driver error |
| `BulkCreatePromises.OuterHookReports` | backend/ent/account_create.go:1964-1967 | a chain with a dishonest hook that is never silent, so honesty is sufficient and not necessary |
| `BulkCreatePromises.SkippingHookLosesRows` | backend/ent/account_create.go:1930-1975 | concrete run: success, nothing inserted, first builder marked done, second node nil |
| `BulkCreateTheorems.HooksBatches` | backend/ent/account_create.go:1930-1974 | from any point on, the batches issued are at most the product of the call counts of the hooks ahead, and exactly that many when no check fails |
| `BulkCreateTheorems.BatchesBoundedByCalls` | backend/ent/account_create.go:1919-1976 | the same bound for a whole save, for arbitrary hooks |
| `EagerLoad.IndexNodes` | backend/ent/account_query.go:543-552 | the ID list in node order, and the index that keeps the last node per ID |
| `EagerLoad.InitEdges` | backend/ent/account_query.go:546-552 | every node's edge is reset to the empty list and no other edge changes |
| `EagerLoad.ScanJoin` | backend/ent/account_query.go:566-585 | one neighbour per ID in order of first row; for each neighbour exactly the parents its rows name |
| `EagerLoad.AssignMany` | backend/ent/account_query.go:597-599 | each parent gets the neighbour once, whatever order the map is iterated in |
| `EagerLoad.StitchOne` | backend/ent/account_query.go:592-600 | one neighbour reaches exactly the resolved parents paired with it; an unknown neighbour errs, an unknown parent ID panics |
| `EagerLoad.StitchJoin` | backend/ent/account_query.go:592-600 | after all neighbours each node holds its join, or the first neighbour that cannot be placed decides the outcome |
| `EagerLoad.LoadManyToMany` | backend/ent/account_query.go:542-602 | the loader appends one ID list, ends as the answer and interceptors determine, and on success each node's edge is the neighbours paired with it in neighbour order |
| `EagerLoad.OwnOne` | backend/ent/authidentity_query.go:579-589 | a neighbour goes to the one parent its key names; a nil or unknown key errs |
| `EagerLoad.StitchOwned` | backend/ent/authidentity_query.go:579-590 | every node's list is its neighbours in order, or the first bad key decides the outcome |
| `EagerLoad.LoadOneToMany` | backend/ent/account_query.go:635-664 | the whole loader against the nested-loop join, with its error cases |
| `EagerLoad.GroupByKey` | backend/ent/account_query.go:604-616 | the distinct keys in order, and for each key exactly the nodes that carry it |
| `EagerLoad.AssignOne` | backend/ent/account_query.go:629-631 | each listed parent gets the neighbour; list edges are untouched |
| `EagerLoad.StitchKeyed` | backend/ent/account_query.go:624-632 | each node's edge is the last returned record with its key; a record nobody asked for errs |
| `EagerLoad.LoadManyToOne` | backend/ent/account_query.go:603-634 | no key means no query; otherwise one list of keys is asked and every node's edge is the record with its key |
| `EagerLoad.LoadGroupsAndProxy` | backend/ent/account_query.go:512-524 | the first failing loader of the two decides the outcome; exactly the ID list and the proxy keys are asked; on success both edges hold their joins and the other edges are untouched |
| `EagerLoad.LoadLists` | backend/ent/account_query.go:525-538 | the first failing loader of the two decides the outcome; exactly the ID lists are asked; on success both list edges hold their joins and the other edges are untouched |
| `EagerLoad.LoadEdges` | backend/ent/account_query.go:480-540 | no nodes means success and no query; otherwise the outcome is that of the first failing loader, loaders after it ask nothing, each one before it asked exactly its ID list or keys, and on success every requested edge of every node holds its join |
| `EagerLoadTheorems.JoinOnceEach` | backend/ent/account_query.go:566-600 | an account's groups are exactly the groups paired with it, once each however often pairs repeat |
| `EagerLoadTheorems.FirstSeenIs` | backend/ent/account_query.go:574-584 | the scanner keeps the record of the first row of each neighbour, in the order of these rows |
| `EagerLoadTheorems.ResolvedExactlyLast` | backend/ent/account_query.go:546-549 | a node is the one its ID resolves to if and only if no later node has the same ID |
| `EagerLoadTheorems.DistinctIdsResolve` | backend/ent/account_query.go:546-549 | with distinct IDs every node resolves to itself |
| `EagerLoadTheorems.JoinRefinedExactlyWhenIdsDistinct` | backend/ent/account_query.go:542-602 | the hash join equals the nested-loop join for every answer if and only if node IDs are distinct |
| `EagerLoadTheorems.StitchLoadedExactlyWhen` | backend/ent/account_query.go:592-600 | many-to-many stitching succeeds if and only if every neighbour was scanned and all its rows name known parents |
| `EagerLoadTheorems.StitchFailureIs` | backend/ent/account_query.go:592-600 | otherwise the first neighbour that cannot be placed decides: an error if it was not scanned, a panic if a row of it names an unknown parent |
| `EagerLoadTheorems.OwnedLoadedExactlyWhen` | backend/ent/authidentity_query.go:579-590 | one-to-many stitching succeeds if and only if every key is present and names a parent |
| `EagerLoadTheorems.OwnedFailureIs` | backend/ent/authidentity_query.go:579-590 | otherwise the first bad neighbour decides, with the nil-key error if its key is nil and the unexpected-key error if it is unknown |
| `EagerLoadTheorems.OwnedRowsConserved` | backend/ent/account_query.go:635-664 | the lists of parents with distinct IDs together hold every neighbour exactly once, and their lengths add up |
| `EagerLoadTheorems.LoadedRowsConserved` | backend/ent/account_query.go:635-664 | the same for the edges the loader leaves: each is the nested-loop join, and together they are the answer |
| `EagerLoadTheorems.AskedOnce` | backend/ent/account_query.go:604-619 | the many-to-one loader asks for each distinct non-nil key exactly once and for nothing else |
| `EagerLoadTheorems.KeyedOutcomeIs` | backend/ent/account_query.go:624-632 | many-to-one stitching succeeds if and only if every returned record was asked for, and else fails with the first that was not |
| `EagerLoadTheorems.OneOrErrAfterLoad` | backend/ent/account.go:112-119 | after loading: not-loaded if and only if the edge was not requested and nothing was found, not-found if and only if a requested key is nil or no such record was returned, else the last record returned with the key; other edges are untouched |
| `EagerLoadTheorems.RoutesToMembershipAgree` | backend/ent/account_query.go:542-694 | over one snapshot the IDs in Groups are the group keys in AccountGroups that name an existing group |
| `EagerLoadTheorems.EdgesAreInverse` | backend/ent/accountgroup_query.go:379-407 | a link is in an account's list if and only if the account loaded for the link has that account's ID |
| `EagerLoadTheorems.OwnedInAnswer` | backend/ent/account_query.go:648-651 | from a builder that accumulated several ID lists a parent gets all its children if it is in every list, else none |
| `EagerLoadTheorems.SecondPageSeesOnlyFirst` | backend/ent/account_query.go:648-651 | the case of two executions, against a fresh builder |
| `EagerLoadTheorems.LoadTwoPages` | backend/ent/account_query.go:635-664 | the same as two runs of the loader over the heap |
| `EagerLoadTheorems.LastInAnswer` | backend/ent/account_query.go:619-623 | from a builder that accumulated several key lists a key finds its record if it is in every list, else none |
| `EagerLoadTheorems.LoadOneTwice` | backend/ent/account_query.go:603-634 | two heap runs of the many-to-one loader with one child: the accessor says not-found for an existing record if and only if the first run asked keys but not this one |
| `QueryBuilder.Append` | backend/ent/account_query.go:42-45 | Go's append: contents extended, in place when capacity allows, otherwise in a new array |
| `QueryBuilder.Query.Flat` | backend/ent/account_query.go:346-359 | a builder with given contents in objects nobody else holds |
| `QueryBuilder.Query.New` | backend/ent/client.go:769-775 | a fresh builder means the empty query with the client's interceptors |
| `QueryBuilder.Query.Where` | backend/ent/account_query.go:42-45 | the arguments are appended to the predicates; nothing else changes, nested builders included |
| `QueryBuilder.Query.OrderBy` | backend/ent/account_query.go:67-70 | the same for order terms |
| `QueryBuilder.Query.SelectFields` | backend/ent/account_query.go:441-447 | the same for the field list of the context |
| `QueryBuilder.Query.SetContext` | backend/ent/account_query.go:48-64 | limit, offset and unique are overwritten and nothing else changes |
| `QueryBuilder.Query.AddLock` | backend/ent/account_query.go:789-811 | a lock modifier is added, and on Postgres DISTINCT is turned off |
| `QueryBuilder.Query.Attach` | backend/ent/account_query.go:370-371 | an edge takes over a builder that shares nothing; siblings keep their meaning |
| `QueryBuilder.Query.WithEdge` | backend/ent/account_query.go:364-404 | the edge means a new builder after the calls of the options, replacing any earlier one |
| `QueryBuilder.Query.Do` | backend/ent/account_query.go:42-70 | every builder call acts on the meaning as `Apply` says, which AppliedResults describes, and allocates what it adds |
| `QueryBuilderTheorems.AppliedResults` | backend/ent/account_query.go:42-447 | after any list of calls: predicates, order, fields and locks are the arguments in call order after the old ones, limit, offset and unique are the last set (a lock on Postgres sets unique to false), and an edge is a new builder after the calls of its last With |
| `QueryBuilder.Query.CloneEdge` | backend/ent/account_query.go:352-355 | one cloned edge, the original untouched |
| `QueryBuilder.Query.Clone` | backend/ent/account_query.go:342-360 | terminates on nested builders, is made of new objects only, means the original without locks, and leaves the original alone |
| `QueryBuilderTheorems.OneStep` | backend/ent/account_query.go:42-70 | one call on one of two separate builders leaves the other's meaning alone and keeps them separate |
| `QueryBuilderTheorems.Diverge` | backend/ent/account_query.go:42-404 | any interleaving of calls on two separate builders: each means what its own calls make of its start |
| `QueryBuilderTheorems.CloneAndDiverge` | backend/ent/accountgroup_query.go:220-258 | the same after a clone, under append aliasing, for arbitrarily nested builders, in terms of the arguments of the calls each of the two saw |
| `QueryBuilderTheorems.CloneExactlyWhenLockFree` | backend/ent/account_query.go:342-360 | the clone means the original if and only if no builder of the tree carries a lock |
| `QueryBuilderTheorems.UnlockedExactly` | backend/ent/account_query.go:342-360 | what is cloned is every field at every level, and no row lock |
| `QueryBuilderTheorems.OnlyDecidesUnbounded` | backend/ent/account_query.go:208-249 | not-found without rows, the row if there is one, not-singular with two or more, of the unlimited result whatever limit was set; Only fails instead if the edges of the first two rows fail to load, OnlyID loads none |
| `QueryBuilderTheorems.FirstDecidesEmptiness` | backend/ent/account_query.go:162-194 | First and FirstID give the first row of the unlimited result, or not-found without rows; Exist says whether there are any; First fails instead if the edges of its row fail to load |
| `QueryBuilderTheorems.ExistExactlyWhenFirst` | backend/ent/account_query.go:319-329 | Exist is true exactly when First succeeds, if and only if the edges of the first row can be loaded |
| `QueryBuilderTheorems.IDFetchesAgreeExactlyWhen` | backend/ent/account_query.go:280-289 | OnlyID and FirstID answer like Only and First, whatever a scan of several columns gives, if and only if nothing was selected before and the edges of the fetched rows load |
| `QueryBuilderTheorems.OnlyLeavesItsLimit` | backend/ent/account_query.go:208-221 | running the builder again after Only yields at most the first two rows |
| `QueryBuilderTheorems.LimitedRows` | backend/ent/account_query.go:751-784 | with a limit of n both the main query and the ID scan fetch the first n rows of the unlimited result |
| `QueryBuilderTheorems.UnboundedRowsAre` | backend/ent/account_query.go:708-784 | the unlimited result: the matching rows, each once where DISTINCT applies by request or on a traversal, without the first `offset`, and at most the largest 32-bit number with an offset |
| `QueryBuilderTheorems.DedupIs` | backend/ent/account_query.go:711-715 | DISTINCT keeps the first row of each ID, in order |
| `QueryBuilder.Query.Snapshot` | backend/ent/account_query.go:708-749 | executing a builder reads exactly its meaning, nested builders included |
| `QueryBuilderTheorems.FetchIDs` | backend/ent/account_query.go:280-289 | on the builder object: DISTINCT set on a traversal, the ID column appended, and the scan's answer |
| `QueryBuilderTheorems.FetchOnly` | backend/ent/account_query.go:208-221 | on the builder object: the answer on the unlimited result, row by row count, or the eager-load error of two rows; only the limit changes |
| `QueryBuilderTheorems.FetchOnlyID` | backend/ent/account_query.go:235-249 | the same for OnlyID without an earlier selection, and what it leaves on the builder |
| `QueryBuilderTheorems.FetchFirst` | backend/ent/account_query.go:162-171 | on the builder object: the first row of the unlimited result, not-found exactly when it is empty, or the error of its eager loads |
| `QueryBuilderTheorems.FetchExist` | backend/ent/account_query.go:319-329 | on the builder object: true exactly when the unlimited result has a row, without an earlier selection |
| `ColumnSelection.QuerySpecColumns` | backend/ent/account_query.go:716-727 | the loop over the fields computes the column list used below |
| `ColumnSelection.QueryColumnsAre` | backend/ent/apikey_query.go:609-623 | no selection fetches the whole table; a selection fetches exactly the ID, first and once, the selected fields in order, then each missing needed key once |
| `ColumnSelection.SelectionFetches` | backend/ent/apikey_query.go:609-623 | under every selection, also the empty one, the ID and each needed key are fetched |
| `ColumnSelection.ChildSelectionFetches` | backend/ent/account_query.go:645-647 | under every child selection the loader's foreign key is fetched, the selected fields stay, and an empty selection stays empty |
| `ColumnSelection.OneToManyIndependentOfSelect` | backend/ent/account_query.go:635-694 | one-to-many stitching ends the same way and gives each parent the records of the full-column join, whatever is selected |
| `ColumnSelection.ManyToOneIndependentOfSelect` | backend/ent/account_query.go:723-726 | the node's key, the outcome and the record found are those of the full-column join |
| `ColumnSelection.ManyToManyIndependentOfSelect` | backend/ent/account_query.go:566-600 | outcome, order and pairing of the many-to-many edge are those of the full-column join |
| `ColumnSelection.KeyKeepsRows` | backend/ent/accountgroup_query.go:448-486 | DISTINCT drops nothing when the whole primary key is fetched |
| `ColumnSelection.UniqueSelectKeepsRowsExactlyWhen` | backend/ent/accountgroup_query.go:448-486 | a Unique account-group child keeps all rows on every table if and only if nothing is selected, the group key is, or the group edge is loaded |
| `ColumnSelection.TwoGroupsCollapse` | backend/ent/accountgroup_query.go:456-470 | without the group key there is a table that loses rows |
| `RowCodec.ScanValues` | backend/ent/account.go:140-161 | one holder per column, of the kind the column's table entry says |
| `RowCodec.AssignValues` | backend/ent/account.go:165-376 | too few values is an error; otherwise the fold of the per-column assignment |
| `RowCodec.NeverMismatch` | backend/ent/account.go:140-376 | for every column list, holders made by the scan never mismatch; decoding fails if and only if some JSON is malformed |
| `RowCodec.DecodesExactlyWhen` | backend/ent/account.go:165-376 | decoding succeeds if and only if every document that is not NULL is well-formed JSON |
| `RowCodec.AssignReads` | backend/ent/account.go:165-376 | with distinct columns each field holds what its own column said and every other field its zero value |
| `RowCodec.SelectedAndNull` | backend/ent/account.go:165-376 | a column outside the table is kept as scanned, and NULL leaves the zero value |
| `RowCodec.AssignOrderIrrelevant` | backend/ent/account.go:165-376 | permuting columns and values together changes neither success nor the entity |
| `RowCodec.ShiftedScan` | backend/ent/account_query.go:566-585 | the scan with the join key in front never panics, reads the join key from the first value and the ID from the second, and decodes the entity as the plain scan does |
| `JoinScan.ScanRows` | backend/ent/account_query.go:566-585 | over the cells of the second query: fails with the first row of a neighbour that does not decode, else leaves exactly the pairs and records that the join works on |
| `JoinScan.PairsAreCells` | backend/ent/account_query.go:577-583 | account and group are paired in the decoded rows if and only if some row has their IDs in its first two cells |
| `JoinScan.LoadCells` | backend/ent/account_query.go:542-602 | from cells to edges: succeeds if and only if the rows decode and name known accounts, and then an account lists a group once, if and only if some row has their two IDs |
| `AccountCreate.DefaultsFacts` | backend/ent/account_create.go:465-519 | defaulting keeps what is set and fills listed columns with their defaults; if it stops, its column is unset and has no default, else all are set |
| `AccountCreate.CheckFieldsFacts` | backend/ent/account_create.go:522-588 | check passes if and only if every required field is set and valid and the session window status is unset or valid; else it names the first that is not |
| `AccountCreate.DefaultsLeaveThree` | backend/ent/account_create.go:465-588 | after completed defaults only name, platform or type can be missing |
| `AccountCreate.RequiredOrNullable` | backend/ent/account_create.go:522-588 | the required columns are exactly the columns other than the ID that are not nullable |
| `AccountCreate.DefaultedAreRequired` | backend/ent/account_create.go:465-588 | every field that can fail to default is required by check |
| `AccountCreate.FailedDefaultsFailCheck` | backend/ent/account_create.go:465-588 | a builder whose defaulting failed does not pass check |
| `AccountCreate.SetFields` | backend/ent/account_create.go:608-781 | spec and node hold exactly the fields that are set, each under its own column |
| `AccountCreate.CreateSpec` | backend/ent/account_create.go:608-781 | the same for the columns createSpec looks at, none of the mutation's fields being missed |
| `AccountCreate.SentFitsRead` | backend/ent/account_create.go:608-781 | every column is sent under the type it is read back with |
| `AccountCreate.CreateReadRoundTrip` | backend/ent/account_create.go:608-780 | for every mutation that passes check, decoding the stored row, columns in any order, gives the node createSpec returned, with the row's ID |
| `AccountCreate.ColumnsAreAll` | backend/ent/account/account.go:115-146 | the table's column list holds every column once, so the round trip applies to it |
| `AccountCreate.FailedDefaultsInsertNothing` | backend/ent/account_create.go:1929-1937 | although bulk save discards the error, a failed defaulting inserts nothing unless a hook of that builder sets the field |
| `AccountCreate.FilledByHookOnlyInBulk` | backend/ent/account_create.go:435-440 | a hook that fills a field without default gets its row inserted by a bulk save and refused by a single one, although sent and checked fields agree |
| `AccountCreate.OnlyCreatedAtMissing` | backend/ent/account_create.go:465-588 | a concrete mutation for which that happens |
| `AuditParser.ParseExceptions` | tools/check_pnpm_audit_exceptions.py:23-48 | the loop computes the fold of the line step, or raises where the fold does |
| `AuditParser.StepsCount` | tools/check_pnpm_audit_exceptions.py:23-48 | from every state with no empty entry: when the rest raises, and how many entries it adds |
| `AuditParser.OneEntryPerItem` | tools/check_pnpm_audit_exceptions.py:23-48 | parsing raises if and only if an item line has no colon; otherwise exactly one non-empty entry per item line |
| `AuditParser.ParsePrinted` | tools/check_pnpm_audit_exceptions.py:12-48 | parsing the printed entries, values plain or in either kind of quotes, gives them back, with comments, blank lines and headers anywhere between |
| `AuditParser.FileRoundTrip` | tools/check_pnpm_audit_exceptions.py:12-48 | the same through the text of the file |
| `AuditParser.NoiseChangesNothing` | tools/check_pnpm_audit_exceptions.py:27-47 | blank lines, comments, headers and colon-free text change nothing, wherever they stand |
| `AuditParser.PreambleChangesNothing` | tools/check_pnpm_audit_exceptions.py:27-47 | lines before the first item are ignored |
| `AuditParser.StripIs` | tools/check_pnpm_audit_exceptions.py:12-30 | stripping removes spaces only, and all of them at both ends |
| `AuditGate.VulnFindings` | tools/check_pnpm_audit_exceptions.py:82-111 | the two lists, the join and the filtered yield of one "vulnerabilities" entry compute the findings that VulnerabilityExactly describes, or the raise |
| `AuditGate.IterVulns` | tools/check_pnpm_audit_exceptions.py:64-111 | both loops compute the findings that FindingsExactly describes, in order, or the raise of a bad entry |
| `AuditGate.CollectVia` | tools/check_pnpm_audit_exceptions.py:84-108 | one advisory and one title per object or string that "via" names, in order |
| `AuditGate.JoinTitles` | tools/check_pnpm_audit_exceptions.py:109 | the titles that are there, joined, or the raise on one that is no string |
| `AuditReportTheorems.AdvisoryExactly` | tools/check_pnpm_audit_exceptions.py:51-78 | an "advisories" entry raises if and only if it is no object or its ID would come from something that is no list of CVEs; its finding takes the first candidate that is there |
| `AuditReportTheorems.VulnerabilityExactly` | tools/check_pnpm_audit_exceptions.py:82-111 | a "vulnerabilities" entry raises if and only if it is no object or some title of "via" is there and no string; it yields exactly the truthy advisories of its items, with severity and joined title |
| `AuditReportTheorems.FindingsExactly` | tools/check_pnpm_audit_exceptions.py:64-111 | the report raises if and only if it or an entry is unreadable; otherwise a finding is yielded if and only if it comes from an entry |
| `AuditReportTheorems.FindingsInOrder` | tools/check_pnpm_audit_exceptions.py:64-111 | the findings of "advisories" come first, then those of "vulnerabilities", each in entry order |
| `AuditReportTheorems.ViaInOrder` | tools/check_pnpm_audit_exceptions.py:82-111 | within an entry they come in the order of the items that name them |
| `AuditReportTheorems.TextsInOrder` | tools/check_pnpm_audit_exceptions.py:109 | the titles that are joined are those that are there, in item order |
| `AuditReportTheorems.GateRaisesExactlyWhen` | tools/check_pnpm_audit_exceptions.py:142-219 | the gate raises if and only if an item line has no colon, the report is unreadable, or a finding has a severity that is no string |
| `AuditReportTheorems.GatePassesOnReport` | tools/check_pnpm_audit_exceptions.py:142-243 | on the two inputs: exit 0 if and only if no item line lacks its colon, the report is readable with string severities, every exception has its five fields, a date and a non-blank key, no two share one, and every finding whose lower-cased severity is high or critical and that has a name has an advisory and an unexpired exception for it with no severity or that of the first such finding |
| `AuditGate.BuildIndex` | tools/check_pnpm_audit_exceptions.py:156-183 | the index and the number of rejected exceptions |
| `AuditGate.ScanFindings` | tools/check_pnpm_audit_exceptions.py:193-219 | the report of the scan over classified findings, or the raise on a severity that is no string; ClassifyIs says what a finding counts as |
| `AuditReportTheorems.ClassifyIs` | tools/check_pnpm_audit_exceptions.py:193-203 | what the scan makes of a finding: raise on a severity that is no string, skipped unless high or critical and named, an error without advisory, else counted under its package and advisory |
| `AuditGate.Gate` | tools/check_pnpm_audit_exceptions.py:142-243 | the exit of the whole program, decided as GatePassesOnReport and GateRaisesExactlyWhen say |
| `AuditGateTheorems.IndexedFacts` | tools/check_pnpm_audit_exceptions.py:156-183 | nothing is rejected if and only if all exceptions are usable and uniquely keyed; then the index holds exactly them |
| `AuditGateTheorems.ScannedDescribes` | tools/check_pnpm_audit_exceptions.py:193-219 | seen, missing and expired keys in terms of the findings and the index |
| `AuditGateTheorems.ScannedErrors` | tools/check_pnpm_audit_exceptions.py:193-219 | no error if and only if every finding has an advisory and each key's first finding has the severity its exception names |
| `AuditGateTheorems.CleanExactlyWhen` | tools/check_pnpm_audit_exceptions.py:193-219 | a clean scan as a condition per key |
| `AuditGateTheorems.GatePassesExactlyWhen` | tools/check_pnpm_audit_exceptions.py:142-243 | exit 0 in terms of classified findings and usable exceptions; GatePassesOnReport spells both out |
| `AuditGateTheorems.NaiveFacts` | tools/check_pnpm_audit_exceptions.py:193-219 | the same description for the scan without deduplication |
| `AuditGateTheorems.DedupRefinesNaive` | tools/check_pnpm_audit_exceptions.py:193-219 | missing and expired never depend on deduplication; with agreeing severities neither does the verdict |
| `AuditGateTheorems.OrderMatters` | tools/check_pnpm_audit_exceptions.py:193-219 | two findings whose order decides the verdict |
| `AuditGateTheorems.OrderBlindExactlyWhenAgree` | tools/check_pnpm_audit_exceptions.py:193-219 | the verdict is the same in every order for every index if and only if findings with equal keys agree, or one has no advisory |
| `AuditGateTheorems.ExceptionOrderIrrelevant` | tools/check_pnpm_audit_exceptions.py:156-183 | the order of exceptions changes neither rejection nor the index |
| `AuditGateTheorems.VerdictOrderIrrelevant` | tools/check_pnpm_audit_exceptions.py:156-219 | agreeing findings and exceptions may both be permuted |
| `AuditReportTheorems.NumericTitleRaises` | tools/check_pnpm_audit_exceptions.py:82-106 | a numeric source that is the only title candidate of a "via" item makes the gate raise whatever the exceptions say |

## Left out

- SQL text, drivers, transactions and `sqlgraph`: a query is a function from ID lists, or from a builder's meaning, to rows.
- Scheduling, quota windows, billing and rate limiting.
- Update, upsert and delete builders, `GroupBy`, `Aggregate` and `Count`; `String()` printers and X-suffixed wrappers.
- Hooks that hand on a mutation of a foreign type (the chain answers with an error), nil hooks, and one builder listed twice in a bulk.
- The interceptors' and `prepareQuery`'s traversal, and the intermediate `sql` selector of a builder; `path` is an opaque token.
- The edge specs of `createSpec` other than the proxy key: groups, account groups and usage logs write to other tables.
- The AccountGroup, APIKey and AuthIdentity codecs and builders: template copies; their loaders are covered by the parameters of the eager loaders.
- Running a builder with a many-to-many edge twice: how two copies of the join compose is decided by the SQL library.
- FetchOnly: the ID lists that eager loads append to nested builders are modelled with the loaders (`LoadTwoPages`, `LoadOneTwice`), not on the builder; FetchFirst likewise.
- Query.New: every builder gets its own interceptor array; some clients hand out their own slice, but no builder call writes to it.
- Error message texts; of a failed run of a loader, the partly filled edges.
- OnlyDecidesUnbounded: a zero or negative limit or offset counts as none; the database may reject it.
- CreateSpec: the straight-line code is a loop over its column list, and structs are maps indexed by column.
- CreateReadRoundTrip: times, numbers and JSON documents are stored faithfully; nullable columns default to NULL.
- Gate: JSON decoding, date parsing, lower-casing, `str` of non-strings and today's date are parameters; floats in JSON are not modelled; reading the files is left out.
- LoadEdges: says nothing about edges after a failure, because `sqlAll` then returns no nodes.
