# GraphPyShop core, modelled in Dafny

GraphPyShop generates an asynchronous Python client for the Shopify Admin
GraphQL API. Three parts of it are modelled here:

- **The base client** (`shopify_async_base_client.py`). This is the cost-based
  rate limiter: a leaky bucket of 20000 points, refilled 1000 points per
  second. On top of it sits the request handler, which throttles, refunds
  and backs off exponentially (factor 3) over 10 retries. The file also holds the
  response helpers:
  - `parse_query_name`, `inject_variables`, `get_data` and `flatten_gql_response`;
  - submitting a bulk operation under the `A bulk query operation for this app and
    shop is already in progress` conflict, within a 600-second budget;
  - polling the bulk operation until it ends;
  - assembling the JSONL export in `get_jsonl`.
- **The query generator** (`shopify_generate_queries.py`). It covers:
  - type unwrapping, connection detection and the list-returning queries;
  - the inversion of those queries by type;
  - the direct object references, where `MetafieldDefinition` also refers to the CamelCase values of `MetafieldOwnerType`;
  - the recursive selection-set builder, with its pruning rules;
  - variable binding;
  - the driver's choice of root fields, with `max_depth = 2` and the hardcoded `first: 250`.
- **The bulk-method plugin** (`shopify_bulk_queries_plugin.py`). For each
  `async def` of the generated client, if its return type resolves to a
  list-returning query, the plugin adds a `bq_` twin. The twin is an async
  generator that runs the query as a bulk operation. The plugin queues the
  imports the twins need and flushes them into the module. The
  `__typename` literals read from the generated model modules are cached
  per module, in a table that lives on the plugin.

The modules follow the source:

| module | models |
|---|---|
| `Wrappers`, `Dicts`, `Json`, `Text` | Option, insertion-ordered dictionaries as key/value sequences, JSON values, ASCII text helpers |
| `Limiter` | the rate limiter, as the class `LimiterTransport` and as reference functions |
| `QueryText` | `parse_query_name` and `inject_variables` |
| `Responses` | `get_data` and `flatten_gql_response` |
| `BulkOps` | `try_create_bulk_query` and the polling in `run_bulk_operation` |
| `Jsonl` | `get_jsonl` |
| `Schema` | the schema-walking helpers of the generator and the enum-value formatting |
| `QueryIndex` | the list-returning queries, their inversion by type, the direct object references |
| `QueryGen` | `generate_query_ast`, `generate_query_with_variables_ast`, `generate_queries` |
| `BulkRules` | the plugin's rules, as functions on values |
| `BulkPlugin` | the plugin as the class `BulkQueriesPlugin`, with its import queue and typename cache as fields |

What the outside world supplies becomes a parameter:
- The server's answers to the rate limiter are a sequence of `Outcome`s
  (throttled, succeeded with a cost extension, other status).
- The bulk-operation attempts and polls are sequences.
- The JSONL file is a sequence of parsed lines.
- The model classes reached by `importlib` are a map from typename to class name.
- The plugin's AST lookups are maps:
  - `_is_list_return_type` is a map `resolve` from annotation to the resolved node and module;
  - the generated model modules it reads are a map `sources`.

Where the source and its documentation disagree, the model follows the source:
- A successful response without a `cost` extension raises, rather than counting zero.
- The capacity has no lower bound; `sync_with_server` may set it above 20000.
- The refund after a success is computed against the first cost estimate, 1000, on every attempt.
- An `acquire` whose cost exceeds 20000 never returns. The model reports it as `None`, blocked.
- `get_jsonl` holds only the latest parent.
- The tests expect a `User errors occurred:` prefix on the error text, which `get_data` never produces.
- In `find_ultimate_object`, the branch at `shopify_generate_queries.py:35` cannot be taken: a field's type is never an object definition. The model therefore always looks at the type's own definition.
- Variables bound while building a sub-field that is then dropped stay in the operation.

## Model

| member | source | states |
|---|---|---|
| Limiter.AfterAdd | graphpyshop/extensions/shopify_async_base_client.py:154-169 | a bucket at or above 20000 is unchanged; below it, adding never passes 20000, never lowers the capacity for non-negative amounts, and adds exactly what fits |
| Limiter.AfterWait | graphpyshop/extensions/shopify_async_base_client.py:133-152 | after waiting, the capacity covers the cost or the bucket is full; an already-covered cost waits for nothing; a wait stops within one tick of the cost |
| Limiter.AfterAcquire | graphpyshop/extensions/shopify_async_base_client.py:133-152 | acquiring blocks forever exactly when the cost is short and exceeds 20000; a covered cost is deducted; a granted acquire leaves a non-negative capacity, below one tick when it had to wait |
| Limiter.EndsAfterThrottles | graphpyshop/extensions/shopify_async_base_client.py:81-131 | every attempt before the one that ends the loop was throttled; a success or an unparsable body is returned, a missing cost or a transport error raised, and exhaustion follows 10 throttled answers |
| Limiter.AllThrottledExhausts | graphpyshop/extensions/shopify_async_base_client.py:93-131 | when every remaining attempt is throttled the handler gives up, having slept 1, 3, 9, … seconds after every throttled attempt but the first |
| Limiter.RefundAgainstStartingCost | graphpyshop/extensions/shopify_async_base_client.py:123-127 | on success the final capacity is the capacity after acquire plus the refund 1000 minus the actual cost, bounded by 20000 |
| Limiter.ThrottleOverwritesCapacity | graphpyshop/extensions/shopify_async_base_client.py:98-106 | a throttled answer replaces the local capacity with the server's: from any two capacities the acquire succeeds from, the rest of the run (outcome, final capacity, back-off sleeps) is the same, and its outcome is that of the next attempt from the server's values |
| Limiter.AddNeverExceedsTotal | graphpyshop/extensions/shopify_async_base_client.py:154-169 | from at most 20000, adding capacity never exceeds 20000 |
| Limiter.LimiterTransport.constructor | graphpyshop/extensions/shopify_async_base_client.py:69-74 | a new limiter starts full, at 20000 |
| Limiter.LimiterTransport.AcquireStep | graphpyshop/extensions/shopify_async_base_client.py:138-144 | one check under the lock: deducts the cost exactly when it is covered, and keeps a non-negative capacity non-negative |
| Limiter.LimiterTransport.AddCapacity | graphpyshop/extensions/shopify_async_base_client.py:154-169 | reports whether the bucket was below 20000, and sets the capacity to AfterAdd |
| Limiter.LimiterTransport.SyncWithServer | graphpyshop/extensions/shopify_async_base_client.py:171-179 | the capacity becomes the server's available amount |
| Limiter.LimiterTransport.Acquire | graphpyshop/extensions/shopify_async_base_client.py:133-152 | the capacity afterwards agrees with AfterAcquire, or with AfterWait when blocked; it waits zero ticks exactly when the cost was covered or the bucket full |
| Limiter.LimiterTransport.HandleAsyncRequest | graphpyshop/extensions/shopify_async_base_client.py:81-131 | result, final capacity and sleeps agree with the reference run HandleRequest |
| QueryText.FirstMatch | graphpyshop/extensions/shopify_async_base_client.py:54-56 | the first position where `query`, one or more spaces and a word character follow, with no such position before it; none when there is none anywhere |
| QueryText.ParseQueryName | graphpyshop/extensions/shopify_async_base_client.py:54-56 | at the leftmost match of `query`, one or more spaces and a word, the whole word after the spaces; `UnknownQuery` when nothing matches |
| QueryText.CloseParen | graphpyshop/extensions/shopify_async_base_client.py:242 | the first `)` reachable on the same line without crossing another `)`, or none |
| QueryText.StripDeclarations | graphpyshop/extensions/shopify_async_base_client.py:242 | the strip only deletes: the result is no longer than the query and holds only characters of it |
| QueryText.StripWithoutDeclarations | graphpyshop/extensions/shopify_async_base_client.py:242 | a query with no `($` is left unchanged by the declaration strip |
| QueryText.StripDeletesSpan | graphpyshop/extensions/shopify_async_base_client.py:242 | a `($ … )` on one line is deleted and the strip continues after it |
| QueryText.FirstCharAbsent | graphpyshop/extensions/shopify_async_base_client.py:244-249 | no occurrence of `$key` starts where its `$` is absent |
| QueryText.ReplaceAll | graphpyshop/extensions/shopify_async_base_client.py:246-248 | `str.replace` of every occurrence: replacing a text by itself changes nothing, and a replacement of the same length keeps the length |
| QueryText.ReplaceAbsent | graphpyshop/extensions/shopify_async_base_client.py:244-249 | replacing a `$key` that occurs nowhere in the text changes nothing |
| QueryText.ReplaceOccurrence | graphpyshop/extensions/shopify_async_base_client.py:244-249 | when no occurrence starts before a given one, that leftmost occurrence is replaced and replacement continues after it, never inside the inserted text |
| QueryText.InjectVariables | graphpyshop/extensions/shopify_async_base_client.py:240-250 | the result is the stripped query with each variable, in order, replaced by its literal: a string between double quotes, unescaped, any other value as Python's `str()` writes it |
| QueryText.InjectDeletesDeclarationList | graphpyshop/extensions/shopify_async_base_client.py:240-250 | the declaration list of `query ($var1: String) { field1 }` is removed |
| QueryText.InjectQuotesStrings | graphpyshop/extensions/shopify_async_base_client.py:244-249 | a string variable is inserted double-quoted |
| Responses.FirstUserErrorsAt | graphpyshop/extensions/shopify_async_base_client.py:224-227 | the first top-level value holding a `userErrors` key, or none |
| Responses.EntryTexts | graphpyshop/extensions/shopify_async_base_client.py:229-236 | every error entry has a text exactly when the list of texts exists, and then it is entry by entry |
| Responses.GetData | graphpyshop/extensions/shopify_async_base_client.py:219-238 | the data comes back unchanged exactly when the first `userErrors` found is absent or falsy; a non-empty list whose entries all render raises exactly the joined `field: message` texts; anything else truthy (a dict, a string, an entry that is not a dict, a field path that cannot be joined) raises out of the comprehension |
| Responses.FirstUserErrorsDecide | graphpyshop/extensions/shopify_async_base_client.py:224-227 | an empty `userErrors` in the first entry ends the search: later entries are not inspected |
| Responses.SingleUserError | graphpyshop/extensions/shopify_async_base_client.py:229-236 | one error with field path and message raises `path: message` |
| Responses.ListMessageRendered | graphpyshop/extensions/shopify_async_base_client.py:229-236 | a list message is written as its `str()`: the error `{"field": ["f"], "message": ["a"]}` raises `f: ['a']` |
| Responses.MissingFieldPath | graphpyshop/extensions/shopify_async_base_client.py:229-236 | an error without `field` is reported as `Unknown field: message` |
| Json.StrRepr | graphpyshop/extensions/shopify_async_base_client.py:232 | `repr` of a string is quoted at both ends with `"` exactly when the text holds `'` and no `"`, and with `'` otherwise |
| Json.StrReprReadsBack | graphpyshop/extensions/shopify_async_base_client.py:232 | reading the string repr back as a Python literal gives the original string, so its escaping of quotes, backslashes and control characters loses nothing |
| Json.EscapeAllReads | graphpyshop/extensions/shopify_async_base_client.py:232 | the escaped body of a repr reads back as the original text, for either quote |
| Json.EscapeCharReads | graphpyshop/extensions/shopify_async_base_client.py:232 | each escaped character reads back as itself, whatever follows it |
| Json.PlainStrRepr | graphpyshop/extensions/shopify_async_base_client.py:232 | a printable ASCII string without `'` or `\` is shown between single quotes as it is |
| Responses.FlattenGqlResponse | graphpyshop/extensions/shopify_async_base_client.py:285-306 | fails exactly when some `edges` entry is not a list of dicts holding `node`; otherwise the result has no `edges` key at any depth (FlattenKeepsEdgeFree and FlattenIdempotent give the fixed points) |
| Responses.FlattenRemovesEdges | graphpyshop/extensions/shopify_async_base_client.py:285-306 | a flattened response contains no `edges` wrapper at any depth |
| Responses.FlattenKeepsEdgeFree | graphpyshop/extensions/shopify_async_base_client.py:285-306 | a value without `edges` is flattened to itself |
| Responses.FlattenIdempotent | graphpyshop/extensions/shopify_async_base_client.py:285-306 | flattening twice is flattening once |
| Responses.FlattenConnection | graphpyshop/extensions/shopify_async_base_client.py:289-294 | `{"edges": [{"node": n}, …]}` flattens to the list of nodes |
| BulkOps.TryCreateBulkQuery | graphpyshop/extensions/shopify_async_base_client.py:252-283 | the query sent is the injected query; the outcome agrees with the reference Submit |
| BulkOps.CallsBounded | graphpyshop/extensions/shopify_async_base_client.py:258-283 | at most 300 calls (600 seconds at 2 seconds per conflict) are made before the loop ends |
| BulkOps.TimeoutOnlyAfterConflicts | graphpyshop/extensions/shopify_async_base_client.py:258-283 | the timeout error is raised only after every call was refused as a conflict, with 2 seconds waited after each |
| BulkOps.FirstNonConflictDecides | graphpyshop/extensions/shopify_async_base_client.py:261-281 | the first answer that is not a conflict, within the budget, decides the outcome |
| BulkOps.ConflictsUntilTimeout | graphpyshop/extensions/shopify_async_base_client.py:258-283 | 300 instantaneous conflicts end in the timeout message after 300 calls and 600 seconds |
| BulkOps.WatchOperation | graphpyshop/extensions/shopify_async_base_client.py:324-365 | polling agrees with the reference WatchFrom |
| BulkOps.NotRunningIsNotPolled | graphpyshop/extensions/shopify_async_base_client.py:322-328 | an operation that is not running ends at once with no poll |
| BulkOps.DownloadOnlyWhenCompleted | graphpyshop/extensions/shopify_async_base_client.py:349-364 | a download happens only on the first check reporting COMPLETED with a URL, every earlier check having reported a running status |
| BulkOps.EndedNotRunning | graphpyshop/extensions/shopify_async_base_client.py:324-365 | polling ends only on a non-running status, within the polls given |
| BulkOps.RunBulkOperation | graphpyshop/extensions/shopify_async_base_client.py:308-365 | records and outcome agree with the reference Run |
| BulkOps.YieldsOnlyAfterCompletion | graphpyshop/extensions/shopify_async_base_client.py:308-365 | records are yielded only after a submission that created an operation and a watch that saw it complete |
| Jsonl.BuildParent | graphpyshop/extensions/shopify_async_base_client.py:397-406 | the new parent and `missing_fields` agree with the reference NewParent |
| Jsonl.NewParentFailureStays | graphpyshop/extensions/shopify_async_base_client.py:398-405 | once introspection of a shape field fails, the later fields do not change the failure |
| Jsonl.TakeChild | graphpyshop/extensions/shopify_async_base_client.py:376-388 | a child line is handled as the reference StepChild |
| Jsonl.YieldHeld | graphpyshop/extensions/shopify_async_base_client.py:390-395 | emitting the held parent agrees with the reference Emit, which yields nothing while `last_parent_id` is unset (as after a null id) |
| Jsonl.TakeTop | graphpyshop/extensions/shopify_async_base_client.py:389-409 | a top-level line is handled as the reference StepTop: its parent is stored under its id, and a JSON null id leaves `last_parent_id` unset |
| Jsonl.GetJsonl | graphpyshop/extensions/shopify_async_base_client.py:367-417 | the records yielded and the exception raised agree with the reference Assemble |
| Jsonl.FeedFailureStays | graphpyshop/extensions/shopify_async_base_client.py:367-417 | after an exception no further line changes the outcome |
| Jsonl.FeedAppend | graphpyshop/extensions/shopify_async_base_client.py:373-406 | reading a file in two parts is reading it whole |
| Jsonl.OnlyLatestParentHeld | graphpyshop/extensions/shopify_async_base_client.py:390-409 | `last_parent_id` is never a null id, and apart from a parent held under a null id only the latest top-level line's parent is held |
| Jsonl.OneRecordPerTopLine | graphpyshop/extensions/shopify_async_base_client.py:389-415 | without an exception, exactly one record is yielded per top-level line whose id is not null |
| Jsonl.NullIdNotYielded | graphpyshop/extensions/shopify_async_base_client.py:408-415 | a top-level line with a null id is never yielded, not even by the final emit |
| Jsonl.UnboundReturnTypeYieldsNothing | graphpyshop/extensions/shopify_async_base_client.py:398 | as written, nothing is ever yielded, and NameError is raised exactly when there is a top-level line |
| Jsonl.GroupsAssemble | graphpyshop/extensions/shopify_async_base_client.py:367-417 | with the shape bound, a well-formed export (every top-level id present and not null) yields one record per group, in order, with each child appended to its connection's edges in input order |
| Jsonl.ShapeMissingTargetsConnections | graphpyshop/extensions/shopify_async_base_client.py:399-405 | `missing_fields` maps node typenames only to connection keys |
| Jsonl.NewParentOfTop | graphpyshop/extensions/shopify_async_base_client.py:397-406 | a top-level line holding exactly the plain fields gets an empty `edges` placeholder for each connection |
| Jsonl.FeedChildren | graphpyshop/extensions/shopify_async_base_client.py:376-388 | the children of the held parent are attached in order, and nothing else changes |
| Schema.IsDeprecated | graphpyshop/extensions/shopify_generate_queries.py:10-11 | a field is deprecated exactly when one of its directives is named `deprecated` |
| Schema.GetFieldTypeName | graphpyshop/extensions/shopify_generate_queries.py:18-21 | the name of the one named type under the wrappers: the reference is some wrappers around that named type, and around no other |
| Schema.GetFieldType | graphpyshop/extensions/shopify_generate_queries.py:13-16 | unwrapping ends on a named type |
| Schema.UnwrapDecomposes | graphpyshop/extensions/shopify_generate_queries.py:13-21 | a type is its wrappers around its named type |
| Schema.UnwrapRemovesWrappers | graphpyshop/extensions/shopify_generate_queries.py:13-21 | any stack of list/non-null wrappers is removed, and its wrappers recovered |
| Schema.FirstNodesField | graphpyshop/extensions/shopify_generate_queries.py:30-41 | the first field named `nodes` of the first definition named after the type, or none |
| Schema.FindUltimateObject | graphpyshop/extensions/shopify_generate_queries.py:30-41 | the named type of the first `nodes` field found, or the type itself when there is none |
| Schema.NoNodesFieldIsUltimate | graphpyshop/extensions/shopify_generate_queries.py:41 | a type without a `nodes` field is its own ultimate object |
| Schema.ConnectionListsItsNodes | graphpyshop/extensions/shopify_generate_queries.py:30-41 | a connection `nodes: [Item!]!` leads to `Item` |
| Schema.ReturnsAList | graphpyshop/extensions/shopify_generate_queries.py:43-45 | a field returns a list exactly when its outermost wrapper is a list, or the named type under all its wrappers ends in `Connection` |
| Schema.ListMustBeOutermost | graphpyshop/extensions/shopify_generate_queries.py:43-45 | a non-connection field returns a list only when its outermost wrapper is a list |
| Schema.ConnectionUnderAnyWrappers | graphpyshop/extensions/shopify_generate_queries.py:43-45 | a `…Connection` type returns a list under any wrappers |
| Schema.IsCoreType | graphpyshop/extensions/shopify_generate_queries.py:244-246 | each of the seven built-in names is core, and nothing is core unless it is built in or among the given scalars or enums |
| Schema.CoreTypeOfDocument | graphpyshop/extensions/shopify_generate_queries.py:244-246 | a type is core exactly when it is a built-in scalar or a scalar or enum defined in the document |
| Schema.SplitOn | graphpyshop/extensions/shopify_generate_queries.py:301 | split yields at least one piece, none holding the separator, joining back to the input |
| Schema.Capitalize | graphpyshop/extensions/shopify_generate_queries.py:301 | first letter upper-cased, the rest lower-cased, length kept |
| Schema.FormatEnum | graphpyshop/extensions/shopify_generate_queries.py:301 | ignoring case, the formatted value is the enum value without underscores, and it holds no underscore |
| Schema.FormatEnumExample | graphpyshop/extensions/shopify_generate_queries.py:301 | `PRODUCT_VARIANT` becomes `ProductVariant` |
| QueryIndex.ListReturningQueries | graphpyshop/extensions/shopify_generate_queries.py:268-275 | the table holds one entry per list-returning root field, the last definition of a query name winning |
| QueryIndex.RootEntriesAre | graphpyshop/extensions/shopify_generate_queries.py:268-275 | an entry exists exactly when some root field returns a list of that type |
| QueryIndex.ListReturningQuery | graphpyshop/extensions/shopify_generate_queries.py:268-275 | a query is in the table exactly when some `QueryRoot` field of that name returns a list |
| QueryIndex.ListedValue | graphpyshop/extensions/shopify_generate_queries.py:268-275 | the recorded type is the ultimate object of some such field |
| QueryIndex.InvertByType | graphpyshop/extensions/shopify_generate_queries.py:278-287 | agrees with the reference Invert |
| QueryIndex.InvertGroups | graphpyshop/extensions/shopify_generate_queries.py:278-287 | a type maps to one query name when it has one, to the list of all its queries in order when more |
| QueryIndex.InvertUnique | graphpyshop/extensions/shopify_generate_queries.py:278-287 | each type appears once in the inverted table |
| QueryIndex.DirectObjectReferences | graphpyshop/extensions/shopify_generate_queries.py:289-309 | a listed type has an entry exactly when it references something; the entry is the set of its listed field types plus, for `MetafieldDefinition`, the CamelCase values of `MetafieldOwnerType`; the table is `ReferenceTable` |
| QueryIndex.RefsAreListed | graphpyshop/extensions/shopify_generate_queries.py:289-296 | every reference that is not an owner type is itself a listed type |
| QueryIndex.OwnerRefsHaveNoUnderscore | graphpyshop/extensions/shopify_generate_queries.py:297-302 | owner types come from formatted enum values, which have no underscore |
| QueryGen.ArgumentsFor | graphpyshop/extensions/shopify_generate_queries.py:107-120 | one argument per field argument, in order, each bound to `$field_arg` |
| QueryGen.DeclaredKeeps | graphpyshop/extensions/shopify_generate_queries.py:107-120 | declaring keeps earlier variables and their uniqueness, and defines every argument's variable |
| QueryGen.FirstDefinitionWins | graphpyshop/extensions/shopify_generate_queries.py:110 | a variable already declared is not redefined |
| QueryGen.NewVariableDefinition | graphpyshop/extensions/shopify_generate_queries.py:110-115 | a new variable takes the argument's type and the hardcoded default, else its own |
| QueryGen.DriverDefaults | graphpyshop/extensions/shopify_generate_queries.py:307-309 | the driver's defaults set `first` to 250 and keep every other argument's default |
| QueryGen.BindArguments | graphpyshop/extensions/shopify_generate_queries.py:205-218 | the root arguments and variables agree with ArgumentsFor and Declared |
| QueryGen.WithoutNodesFields | graphpyshop/extensions/shopify_generate_queries.py:192-194 | exactly the selections that are not a `nodes` field remain |
| QueryGen.FirstObjectNamed | graphpyshop/extensions/shopify_generate_queries.py:79-80 | the first object definition of the name, or none |
| QueryGen.GenerateQueryAst | graphpyshop/extensions/shopify_generate_queries.py:47-197 | the selection set and variables equal the specification function `Gen`; a pruned field selects nothing; variables only grow and stay unique; every argument is bound; depth stays within the limit; no `nodes` beside `edges`; each selection is a kept sub-field of the object or a fragment on an implementor of the interface |
| QueryGen.SelectSubFields | graphpyshop/extensions/shopify_generate_queries.py:84-127 | the selections and variables equal the specification function `SelectFrom`; each selection is kept from some sub-field: not deprecated, within depth, with a selection or of core type, not a non-ID field under a listed parent |
| QueryGen.InterfaceFragments | graphpyshop/extensions/shopify_generate_queries.py:129-186 | the selections and variables equal the specification function `Fragments`; `found` holds exactly when an interface definition of that name exists; fragments only for an interface that exists, each non-empty and on an object type implementing it |
| QueryGen.WithoutNodesKeeps | graphpyshop/extensions/shopify_generate_queries.py:192-194 | dropping the `nodes` fields keeps every argument bound, the depth limit, and each selection's origin |
| QueryGen.SelectFromStep | graphpyshop/extensions/shopify_generate_queries.py:84-125 | one field adds its node exactly when it is kept, and nothing otherwise |
| QueryGen.SelectFromComplete | graphpyshop/extensions/shopify_generate_queries.py:84-125 | the loop selects exactly the kept fields, in field order: the node for kept field `j` sits at position `KeptBefore(j)`, with its arguments and its own selection set, and there are no other selections |
| QueryGen.KeptInOrder | graphpyshop/extensions/shopify_generate_queries.py:84-125 | a kept field's position comes before every later field's |
| QueryGen.KeptSelected | graphpyshop/extensions/shopify_generate_queries.py:84-125 | every kept field's node is among the loop's selections |
| QueryGen.GenComplete | graphpyshop/extensions/shopify_generate_queries.py:79-127 | on an object type, every kept sub-field other than `nodes` is selected, with its arguments and its own selection set |
| QueryGen.InnerComplete | graphpyshop/extensions/shopify_generate_queries.py:136-186 | one interface yields exactly one inline fragment per implementing object type with a non-empty selection, in document order, each holding that selection |
| QueryGen.SingleInterfaceFragments | graphpyshop/extensions/shopify_generate_queries.py:131-186 | with one interface definition of that name, the interface branch is exactly that interface's fragments |
| QueryGen.NoInterfaceBefore | graphpyshop/extensions/shopify_generate_queries.py:131-133 | before any interface definition of that name, the interface branch has selected nothing |
| QueryGen.GenerateQueryWithVariablesAst | graphpyshop/extensions/shopify_generate_queries.py:199-242 | the operation is OperationFor: named after the field, selecting the root field with its arguments over the selection set `Gen` computes from no variables, and declaring `Gen`'s variables extended by the root's own; those are unique and bind every argument |
| QueryGen.OperationComplete | graphpyshop/extensions/shopify_generate_queries.py:199-242 | the operation for a root field of object type selects every kept sub-field other than `nodes`, with its arguments and its own selection set |
| QueryGen.SelectedFieldsQualify | graphpyshop/extensions/shopify_generate_queries.py:317-329 | a field is chosen exactly when it belongs to an object definition named as a root, is not deprecated, and passes the include and exclude filters |
| QueryGen.SelectedInQualify | graphpyshop/extensions/shopify_generate_queries.py:324-329 | a field of one definition is chosen exactly when it is not deprecated and passes the filters |
| QueryGen.GenerateQueries | graphpyshop/extensions/shopify_generate_queries.py:248-337 | one operation per chosen root field, in document order, each the OperationFor that field at depth 0 under the driver's tables (DriverContext), and well-formed |
| QueryGen.GenerateEach | graphpyshop/extensions/shopify_generate_queries.py:317-336 | the driver loop's operations, one per field, in order: each is OperationFor its field, with the query named after it |
| BulkRules.WithImport | graphpyshop/extensions/shopify_bulk_queries_plugin.py:254-260 | queues the name under its module, other modules unchanged, a new module appended |
| BulkRules.AddImportIdempotent | graphpyshop/extensions/shopify_bulk_queries_plugin.py:254-260 | queueing the same import twice is queueing it once |
| BulkRules.WithImportsAdds | graphpyshop/extensions/shopify_bulk_queries_plugin.py:237-252 | queueing a list adds exactly those names to that module |
| BulkRules.TypenamePairs | graphpyshop/extensions/shopify_bulk_queries_plugin.py:21-42 | classes without a `__typename` literal, or with an empty one, are left out |
| BulkRules.TypenameMapGet | graphpyshop/extensions/shopify_bulk_queries_plugin.py:21-42 | a typename maps to the last class declaring it; the empty name to nothing |
| BulkRules.CachedLookupIgnoresReads | graphpyshop/extensions/shopify_bulk_queries_plugin.py:23-24 | a cached module is answered from the cache, whatever the files say |
| BulkRules.FailedReadNotCached | graphpyshop/extensions/shopify_bulk_queries_plugin.py:35-42 | an unreadable module gives an empty map and is not cached |
| BulkRules.LookupTwice | graphpyshop/extensions/shopify_bulk_queries_plugin.py:21-42 | looking up twice gives the same as once |
| BulkRules.VariablesDict | graphpyshop/extensions/shopify_bulk_queries_plugin.py:357-368 | each variable maps an argument to itself, and `self` is not one |
| BulkRules.VariablesDictKeys | graphpyshop/extensions/shopify_bulk_queries_plugin.py:357-368 | the variables are every argument but `self`, in order |
| BulkRules.GqlVarName | graphpyshop/extensions/shopify_bulk_queries_plugin.py:139 | the query constant is the upper-cased method name followed by `_GQL` |
| BulkRules.BulkMethodBody | graphpyshop/extensions/shopify_bulk_queries_plugin.py:328-418 | a bulk body whose typename map is the cached lookup; only the cache changes |
| BulkRules.TwinRule | graphpyshop/extensions/shopify_bulk_queries_plugin.py:99-154 | every added method is the `bq_` twin of an eligible method; no twin shadows an existing name; twins are distinct; every eligible method gets one |
| BulkRules.NoAnnotationNoTwin | graphpyshop/extensions/shopify_bulk_queries_plugin.py:117-118 | without return annotations nothing is added and nothing changes |
| BulkRules.EnhanceModuleShape | graphpyshop/extensions/shopify_bulk_queries_plugin.py:60-71 | the module keeps its statements in place; other statements are unchanged, and each class is its own members followed by exactly the twins that Enhance computes for them from the plugin state the earlier classes left |
| BulkRules.NecessaryImportsQueue | graphpyshop/extensions/shopify_bulk_queries_plugin.py:73-97 | the entries for `typing`, `.enums` and `.bulk_operation` become exactly their old sets plus `AsyncGenerator` when it is not imported from `typing`, and plus `BulkOperationStatus` and `BulkOperationNodeBulkOperation` when `BulkOperationStatus` is not imported from `.enums` |
| BulkRules.NecessaryImportsKeep | graphpyshop/extensions/shopify_bulk_queries_plugin.py:73-97 | a pair already queued leaves its entry unchanged; a module that imports both names leaves the table as it was; no other module's entry changes; the modules already in the table keep their order |
| BulkRules.FirstTypeChecking | graphpyshop/extensions/shopify_bulk_queries_plugin.py:264-270 | the first `if TYPE_CHECKING:` block, or none |
| BulkRules.FlushShape | graphpyshop/extensions/shopify_bulk_queries_plugin.py:262-292 | the flushed module is the outside imports in reverse order, then the body with the inside imports appended to the block |
| BulkRules.FlushWithoutBlock | graphpyshop/extensions/shopify_bulk_queries_plugin.py:262-292 | without a `TYPE_CHECKING` block every import goes in front, in reverse order |
| BulkPlugin.BulkQueriesPlugin.constructor | graphpyshop/extensions/shopify_bulk_queries_plugin.py:12-18 | an empty import queue and an empty typename cache |
| BulkPlugin.BulkQueriesPlugin.AddImport | graphpyshop/extensions/shopify_bulk_queries_plugin.py:254-260 | the queue becomes WithImport of the old queue; the cache is unchanged |
| BulkPlugin.BulkQueriesPlugin.AddImportToModule | graphpyshop/extensions/shopify_bulk_queries_plugin.py:237-252 | queues the names of the annotation, under `TYPE_CHECKING` |
| BulkPlugin.BulkQueriesPlugin.GetTypenameToClassMap | graphpyshop/extensions/shopify_bulk_queries_plugin.py:21-42 | map and new cache agree with Lookup; the queue is unchanged |
| BulkPlugin.BulkQueriesPlugin.IsListReturnType | graphpyshop/extensions/shopify_bulk_queries_plugin.py:156-202 | the resolution of the annotation, if any; on a hit the node type's names are queued under its module as `_add_import_to_module` queues them, on a miss the queue is unchanged; the typename cache is never touched |
| BulkPlugin.BulkQueriesPlugin.GenerateBulkMethodBody | graphpyshop/extensions/shopify_bulk_queries_plugin.py:328-418 | body and new state agree with BulkMethodBody |
| BulkPlugin.BulkQueriesPlugin.CreateBulkMethod | graphpyshop/extensions/shopify_bulk_queries_plugin.py:294-321 | the twin is named `bq_` plus the name, keeps the arguments, returns `AsyncGenerator[node, None]`, with the bulk body |
| BulkPlugin.BulkQueriesPlugin.EnhanceClassWithBulkMethods | graphpyshop/extensions/shopify_bulk_queries_plugin.py:99-154 | the methods added and the new state agree with Enhance |
| BulkPlugin.BulkQueriesPlugin.AddNecessaryImports | graphpyshop/extensions/shopify_bulk_queries_plugin.py:73-97 | the queue becomes NecessaryImports of the module |
| BulkPlugin.BulkQueriesPlugin.FlushPendingImports | graphpyshop/extensions/shopify_bulk_queries_plugin.py:262-292 | the queue is emptied; each queued import is emitted exactly once, module by module in the table's insertion order; and the module is FlushWith in that order |
| BulkPlugin.EmitModule | graphpyshop/extensions/shopify_bulk_queries_plugin.py:274-290 | the pairs queued for module `i` are appended once each after the pairs of modules `0…i-1`, which keep their places; every pair so far belongs to the first `i + 1` modules, in table order; and the module text and block position stay those that FlushWith gives for the order so far |
| BulkPlugin.GroupedStep | graphpyshop/extensions/shopify_bulk_queries_plugin.py:274-276 | appending the pairs of the next module of the table keeps the emitted order grouped by module |
| BulkPlugin.EmitPair | graphpyshop/extensions/shopify_bulk_queries_plugin.py:276-290 | one pair goes to the end of the `TYPE_CHECKING` block when the block exists and the flag is set, otherwise to the front of the module, which moves the block down by one |
| BulkPlugin.BulkQueriesPlugin.GenerateClientModule | graphpyshop/extensions/shopify_bulk_queries_plugin.py:60-71 | the module is enhanced, the necessary imports queued, and all of them flushed once each, module by module; the queue ends empty |
| BulkPlugin.CacheStable | graphpyshop/extensions/shopify_bulk_queries_plugin.py:21-42 | generating a body never changes an already-cached module's map |

## Left out

- `verify_webhook`: HMAC-SHA256 and base64 are not modelled.
- HTTP, the `httpx` transport and the file download are left out. Responses, answers and files are parameters.
- Concurrency is left out. The asyncio lock and event are replaced by atomic methods, and the background `_add_capacity_task` by explicit `AddCapacity` calls, one per tick.
- Logging, `request_counter` and request ids are left out: they change no result.
- Time is left out. Clocks and sleeps are integer seconds; float costs and timestamps are not modelled.
- pydantic reflection and `model_validate` are left out:
  - the declared shape of `return_type` is a parameter;
  - the classes are a map from typename to class name.
- `generate_queries`: schema loading, printing and file writes are left out.
- QueryGen.GenerateQueryAst: the recursion carries a `fuel` bound, and selects nothing once it runs out. The source does not terminate on a cycle through `edges`, `node` or `pageInfo`, which do not deepen the selection. Its `visited_types` parameter is never read, so it is left out.
- QueryIndex.DirectObjectReferences: the references are sets, not the source's unordered `list(set(...))`.
- Jsonl.TakeTop: parent ids are compared as JSON values. The source's ids are strings. An array or object id, for which Python's dict lookup raises TypeError, and Python's merging of `true` with `1` as dict keys, are not modelled.
- The plugin's AST walking is left out: `_is_list_return_type`, `_get_class_ast`, `_find_class_in_ast` and `_extract_typename_literal` become the input maps `resolve` and `sources`.
- The module AST is passed and returned as a value, not mutated in place.
- Only positional method arguments are modelled. Keyword-only arguments are left out.
- BulkPlugin.BulkQueriesPlugin.FlushPendingImports: the modules are visited in the order of the pending dict, which is proved. The names within one module come from a Python set, whose iteration order is unspecified, so the model picks any order and states the result for that order.
- The class attribute `_typename_to_class_map` is shared by all plugin instances. It is modelled as a field of the one plugin.
- Case conversion and the regular-expression classes `\w` and `\s` are ASCII only; Python also accepts Unicode letters, digits and spaces there.
- File-path formatting of the generated model modules is left out.
- Json.Repr: characters above U+00A0 that Python treats as non-printable, such as U+00AD, are shown as they are; Python escapes them as `\xhh`, `\uhhhh` or `\Uhhhhhhhh`.
- Json.Repr: JSON numbers with a fraction or an exponent, which `json.loads` turns into floats, are not modelled. Neither are enum members or other objects passed as query variables. A JSON value here is `null`, a boolean, an integer, a string, an array or an object.
- Json.Repr: an object's members are shown once each, in order. An object with a duplicate key, which `json.loads` collapses to its last value, is not modelled.
- Json.Repr: Python's limit on the number of digits `str` writes for an integer (4300 by default) is not modelled.

## Findings

| source | as written | input that shows it | evidently intended | confidence | as-written member | corrected member |
|---|---|---|---|---|---|---|
| graphpyshop/extensions/shopify_async_base_client.py:398 | `return_type` is never bound in `get_jsonl`, so the first top-level line raises NameError | any export with a top-level line: nothing is yielded | the declared result type's fields give the connection placeholders | not executed | Jsonl.UnboundReturnTypeYieldsNothing | Jsonl.GroupsAssemble |
