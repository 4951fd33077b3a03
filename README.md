# node-manager-svc in Dafny

A model of the node manager service: an `edge` table of directed `(fromId, toId)`
pairs with a uniqueness constraint, the service that creates, looks up and deletes
pairs and builds the tree of descendants of a node breadth-first, the REST
controller in front of it, and the exception handler that turns failures into
HTTP statuses and `ErrorResponse` bodies.

Files and modules:

- `wrappers.dfy` (`Wrappers`): `Option` for nullable returns, `Result` for thrown exceptions.
- `dtos.dfy` (`Dtos`): `Edge` (a table row and the `EdgeDTO` request body), `EdgeResponse`,
  `NodeTree` (`NodeTreeDTO`), the three service exceptions as `ServiceError`, and the
  decimal rendering of ids used in messages.
- `edge_table.dfy` (`EdgeTable`): the table as a sequence of rows in storage order; the
  children query and the delete filter, with their lemmas.
- `tree_spec.dfy` (`TreeSpec`): the reference tree `Unfold(id) = Node(id, [Unfold(c) | c in ChildrenOf(id)])`,
  the acyclicity precondition (`Ranked`: a rank that strictly drops along every edge
  leaving a ranked node), reachability and the children rule.
- `node_manager_service.dfy` (`NodeManagerService`): class `Service` whose field `edges`
  is the table and whose `Valid()` is the uniqueness constraint; the imperative
  breadth-first builder and its proof against `Unfold`.
- `node_manager_controller_api.dfy` (`NodeManagerControllerApi`): class `Controller` over a `Service`.
- `global_exception_handler.dfy` (`GlobalExceptionHandler`), `http.dfy` (`Http`): the
  exception-to-status table and the `ErrorResponse` rules.
- `tree_examples.dfy` (`TreeExamples`): two concrete tables and their trees.

Behaviour kept as the code has it:

- The root-existence test of `getTreeByRootNode` counts the root's outgoing edges and
  compares the count with `>= 0`, which always holds. The not-found branch is kept in
  `Service.GetTreeByRootNode` and its contract proves it is never taken: the builder
  always succeeds, even though its doc comment says it throws for a missing root.
  A root with no edges at all yields a single node with no children.
- The builder keeps no visited set. It is specified only for tables where no cycle is
  reachable from the root (`Ranked`); `TreeSpec.NoReachableCycle` shows that such a rank
  rules out every reachable cycle. Only that direction is proved: that every finite table
  with no reachable cycle has such a rank (for instance the longest-path height) is not
  proved here. A node reachable along two paths appears once per
  path (`TreeExamples.SharedDescendantRepeated`), so "every reachable node exactly
  once" holds of the loop's dequeues of tree nodes, not of node ids.
- The children query has no `order by`, so the database may return a node's children in any
  order. The model chooses storage order (the order of the `edges` sequence); see "## Left out".
- The header values `x-request-id` and `x-correlation-id` are parameters of the
  controller methods and appear in none of their contracts: every result and every
  new state is fixed by the request and the old table alone.

## Model

| member | source | states |
|---|---|---|
| EdgeTable.ChildrenOf | src/main/kotlin/com/prewave/nodemanager/services/NodeManagerService.kt:71-74 | the children query returns exactly the `toId`s of rows whose `fromId` is the node, and no more of them than there are rows |
| EdgeTable.ChildrenOfAppend | src/main/kotlin/com/prewave/nodemanager/services/NodeManagerService.kt:71-74 | the children query over a table split in two is the query over each part, in table order |
| EdgeTable.RemovePair | src/main/kotlin/com/prewave/nodemanager/services/NodeManagerService.kt:86-91 | after a delete, a row survives iff it was stored and differs from the deleted pair |
| EdgeTable.RemoveAbsent | src/main/kotlin/com/prewave/nodemanager/services/NodeManagerService.kt:86-91 | deleting a pair that is not stored leaves the table unchanged |
| EdgeTable.RemovePresent | src/main/kotlin/com/prewave/nodemanager/services/NodeManagerService.kt:86-91 | under uniqueness, deleting the pair at position k removes that one row and keeps every other row in place and order |
| EdgeTable.RemoveCount | src/main/kotlin/com/prewave/nodemanager/services/NodeManagerService.kt:86-91 | under uniqueness, a delete removes 1 row if the pair was stored and 0 otherwise |
| EdgeTable.RemoveKeepsUnique | src/main/kotlin/com/prewave/nodemanager/services/NodeManagerService.kt:86-91 | a delete keeps the uniqueness constraint |
| EdgeTable.AppendKeepsUnique | src/main/kotlin/com/prewave/nodemanager/services/NodeManagerService.kt:25-31 | inserting a pair that is not stored keeps the uniqueness constraint |
| TreeSpec.UnfoldChildrenMatch | src/main/kotlin/com/prewave/nodemanager/services/NodeManagerService.kt:71-80 | in the reference tree, every node's children are exactly the targets of its outgoing edges, in table order |
| TreeSpec.ChildrenMatchUnique | src/main/kotlin/com/prewave/nodemanager/services/NodeManagerService.kt:71-80 | that children rule determines the tree: any tree obeying it at every node is the reference tree of its root |
| TreeSpec.OccursReachable | src/main/kotlin/com/prewave/nodemanager/services/NodeManagerService.kt:66-83 | every id in the tree is reachable from the root along stored edges (a path is produced) |
| TreeSpec.ReachableOccurs | src/main/kotlin/com/prewave/nodemanager/services/NodeManagerService.kt:66-83 | every id reachable from the root along stored edges appears in the tree |
| TreeSpec.OccursIffReachable | src/main/kotlin/com/prewave/nodemanager/services/NodeManagerService.kt:66-83 | an id appears in the tree iff it is reachable from the root |
| TreeSpec.RankDropsAlongPath | src/main/kotlin/com/prewave/nodemanager/services/NodeManagerService.kt:69-82 | the acyclicity rank strictly drops along every walk of one or more edges |
| TreeSpec.NoReachableCycle | src/main/kotlin/com/prewave/nodemanager/services/NodeManagerService.kt:69-82 | with such a rank, no cycle through the root exists, which is what the unguarded loop needs to stop |
| NodeManagerService.DecodeIsUnfold | src/main/kotlin/com/prewave/nodemanager/services/NodeManagerService.kt:65-83 | once every allocated node has been dequeued and given its children, the object graph below each node is the reference tree of its id |
| NodeManagerService.PopulateChildren | src/main/kotlin/com/prewave/nodemanager/services/NodeManagerService.kt:76-81 | the inner loop appends one fresh childless node per child id, in order, to the current node's children and to the queue, and touches no other node |
| NodeManagerService.StepInvariant | src/main/kotlin/com/prewave/nodemanager/services/NodeManagerService.kt:69-82 | one dequeue-and-populate step keeps the builder's invariant: the dequeued node is now expanded and the new nodes are childless |
| NodeManagerService.StepMeasure | src/main/kotlin/com/prewave/nodemanager/services/NodeManagerService.kt:69-82 | one dequeue-and-populate step lowers the number of tree nodes still to be built by exactly one, which is why the loop ends |
| NodeManagerService.Service.Store | src/main/kotlin/com/prewave/nodemanager/services/NodeManagerService.kt:26-29 | the insert adds the pair and reports 1 row when it is not stored; otherwise it reports 0 rows and changes nothing |
| NodeManagerService.Service.CreateEdge | src/main/kotlin/com/prewave/nodemanager/services/NodeManagerService.kt:25-32 | an absent pair is appended and returned with both ids; a stored pair fails with DuplicateResource "Error inserting Edge" and leaves the table unchanged; the pair is stored afterwards either way |
| NodeManagerService.Service.FindEdge | src/main/kotlin/com/prewave/nodemanager/services/NodeManagerService.kt:40-45 | a record is returned iff the pair is stored, and it carries both requested ids; the table is not touched |
| NodeManagerService.Service.DeleteEdge | src/main/kotlin/com/prewave/nodemanager/services/NodeManagerService.kt:86-91 | the table becomes the delete filter of the old one, and the returned count is 1 if the pair was stored and 0 otherwise, without failing |
| NodeManagerService.Service.GetTreeByRootNode | src/main/kotlin/com/prewave/nodemanager/services/NodeManagerService.kt:57-84 | never ResourceNotFound (the count is never negative); when no cycle is reachable the loop ends, the tree's root id is the requested one and the tree is the reference tree; the loop dequeues exactly as many nodes as the tree has |
| NodeManagerControllerApi.Controller.CreateEdge | src/main/kotlin/com/prewave/nodemanager/controller/NodeManagerControllerApi.kt:17-32 | a stored pair fails with DuplicateResource "Edge from f to t already exists." before any insert (the service's create is not called, the table is unchanged); an absent pair calls the service's create exactly once and answers 201 with the request's ids |
| NodeManagerControllerApi.Controller.RemoveEdge | src/main/kotlin/com/prewave/nodemanager/controller/NodeManagerControllerApi.kt:35-43 | the service's delete is called once, the table loses exactly that pair, and the answer is 204 whether or not a row was removed |
| NodeManagerControllerApi.Controller.GetEdgeTree | src/main/kotlin/com/prewave/nodemanager/controller/NodeManagerControllerApi.kt:46-52 | the answer is the service's tree, unchanged |
| NodeManagerControllerApi.CreateSamePairTwice | src/main/kotlin/com/prewave/nodemanager/controller/NodeManagerControllerApi.kt:22-31 | creating the same pair twice in a row: the first answers 201, the second fails with DuplicateResource, answered 409, and the pair is stored once |
| Http.Value | src/main/kotlin/com/prewave/nodemanager/controller/GlobalExceptionHandler.kt:75-76 | the exact code of each status as `HttpStatus.value()` gives it (201, 204, 400, 404, 409, 423, 500, 503), so 4xx and 5xx exactly for the error statuses |
| GlobalExceptionHandler.HandleGeneralError | src/main/kotlin/com/prewave/nodemanager/controller/GlobalExceptionHandler.kt:99-103 | the body's status is the numeric value of the response status, with the given message |
| GlobalExceptionHandler.HandleResourceNotFound | src/main/kotlin/com/prewave/nodemanager/controller/GlobalExceptionHandler.kt:33-36 | 404, message or "Resource Not found" |
| GlobalExceptionHandler.HandleInvalidOperation | src/main/kotlin/com/prewave/nodemanager/controller/GlobalExceptionHandler.kt:38-41 | 400, message or "Invalid operation" |
| GlobalExceptionHandler.HandleDuplicateResource | src/main/kotlin/com/prewave/nodemanager/controller/GlobalExceptionHandler.kt:43-46 | 409, message or "Duplicate resource" |
| GlobalExceptionHandler.HandleBadRequestRuntimeException | src/main/kotlin/com/prewave/nodemanager/controller/GlobalExceptionHandler.kt:48-54 | illegal-argument, illegal-format and illegal-state exceptions: 400, message or "Bad Request" |
| GlobalExceptionHandler.HandleBadRequestException | src/main/kotlin/com/prewave/nodemanager/controller/GlobalExceptionHandler.kt:56-59 | a missing request header: 400, message or "Bad Request" |
| GlobalExceptionHandler.HandleDataAccessExceptions | src/main/kotlin/com/prewave/nodemanager/controller/GlobalExceptionHandler.kt:61-77 | empty result 404, resource failure 503, lock failure 423, integrity violation 409, anything else 500; message or "Database error"; the body's status is the response's code |
| GlobalExceptionHandler.HandleHttpMessageNotReadable | src/main/kotlin/com/prewave/nodemanager/controller/GlobalExceptionHandler.kt:80-87 | an unreadable body: 400, message or "Bad Request" |
| GlobalExceptionHandler.HandleTypeMismatch | src/main/kotlin/com/prewave/nodemanager/controller/GlobalExceptionHandler.kt:90-97 | a type mismatch: 400, message or "Bad Request" |
| GlobalExceptionHandler.Handle | src/main/kotlin/com/prewave/nodemanager/controller/GlobalExceptionHandler.kt:33-97 | routing every handled exception class to its handler gives an error status equal to the flat table `StatusOf`, a body whose status is that code, and the exception's message or the class's default |
| GlobalExceptionHandler.FromServiceError | src/main/kotlin/com/prewave/nodemanager/exception/Exceptions.kt:3-5 | each service exception is thrown with its (non-null) message |
| GlobalExceptionHandler.ServiceErrorResponse | src/main/kotlin/com/prewave/nodemanager/controller/GlobalExceptionHandler.kt:33-46 | the service's not-found, invalid-operation and duplicate errors reach the client as 404, 400 and 409 with their own message |
| TreeExamples.ThreeEdgeTree | src/main/kotlin/com/prewave/nodemanager/services/NodeManagerService.kt:66-83 | for edges (1,2), (1,3), (2,4) the tree below 1 is 1[2[4], 3] |
| TreeExamples.SharedDescendantRepeated | src/main/kotlin/com/prewave/nodemanager/services/NodeManagerService.kt:66-83 | for edges (1,2), (1,3), (2,4), (3,4) the tree below 1 is 1[2[4], 3[4]]: a shared descendant appears once per path |

## Left out

- EdgeTable.ChildrenOf: returns children in storage order, a choice of this model; the order the
  database actually returns them in (unspecified without `order by`, possibly `to_id` order
  through the unique index) is not modelled. The "in table order" parts of
  `TreeSpec.UnfoldChildrenMatch`, `TreeExamples.ThreeEdgeTree` and
  `TreeExamples.SharedDescendantRepeated` hold only under this choice.
- The database: SQL, jOOQ records and the `@Transactional` boundary are replaced by the
  `edges` sequence; requests run one at a time, so races between concurrent creates are
  not modelled. The uniqueness constraint lives in a migration that is not part of this
  model; it is stated as `Service.Valid()`.
- NodeManagerService.Service.Store: a duplicate insert is modelled as the constraint
  letting zero rows in. A real database would more likely raise an integrity violation,
  which the exception handler answers with 409 as well.
- NodeManagerService.Service.GetTreeByRootNode: the `NodeTreeDTO` objects and their mutable
  `children` lists are modelled as slots of an arena (a slot number stands for an object
  reference); each node is created once and appended to one parent, so no aliasing arises.
  The tree is returned as the value read back from the root slot.
- NodeManagerService.Service.GetTreeByRootNode: on a table with a cycle reachable from the root the
  loop never ends; only tables with a rank (no reachable cycle) are covered.
- Logging (`logError`, the MDC values) and the per-request MDC interceptor: output only.
- Spring wiring, application bootstrap and code generation.
- Exceptions with no handler method in `GlobalExceptionHandler` (answered by the framework's
  defaults) are not part of this model.
- Ids are unbounded integers: they are only compared, so 32-bit bounds do not matter; the
  nullable `Int?` of the response types is never null on these paths and is modelled as `int`.
