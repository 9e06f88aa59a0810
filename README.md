# Spring Boot 4 notes: the store and service layers, modelled in Dafny

The repository is a set of small Spring Boot 4 demo applications. Each one
has a thin service layer over a store. This project models that layer:

- **graphql**: a product service over a concurrent map keyed by UUID
  strings, with offset paging and a partial update that keeps what the
  input leaves null (`graphql_product_service.dfy`).
- **grpc**: a demo service whose names must be non-blank and at most 50
  UTF-16 code units long (`grpc_demo_service.dfy`).
- **http-client**: two demo services without validation of their own. One
  uses sequential `AtomicLong` ids (`http_client_demo_service.dfy`), the
  other UUID ids (`http_client_internal_demo_service.dfy`).
- **test**:
  - the product record with its compact-constructor checks
    (`test_product_model.dfy`);
  - the in-memory product repository (`test_product_repository.dfy`) and
    the product service over it (`test_product_service.dfy`);
  - the order record (`test_order_model.dfy`), the order repository
    (`test_order_repository.dfy`) and the order service, which draws a
    request id and publishes an event (`test_order_service.dfy`);
  - the lifecycle-managed background task with its 32-bit counter
    (`test_background_task_service.dfy`);
  - the JUnit `@Retryable` extension (`test_retryable_extension.dfy`).
- **flyway**: the product entity with its bean-validation constraints
  (`NotBlank` for Hibernate's `@NotBlank`, gathered in `ValidBusiness`,
  `ValidAuditUser` and `ValidProduct`) and copy-with operations (`flyway_product.dfy`), the REST mapper
  (`flyway_product_mapper.dfy`), and the service over a Spring Data JDBC
  repository (`flyway_product_service.dfy`).
- **jooq**: the repository's SQL statements against the PRODUCTS table
  (`jooq_product_repository.dfy`), the row-to-DTO mapper
  (`jooq_product_mapper.dfy`) and the service (`jooq_product_service.dfy`).
- Shared definitions live in `common.dfy`:
  - Java nullable references as `Option`;
  - thrown exceptions as `Result`/`Outcome` values;
  - `Character.isWhitespace`, `String.isBlank` and `String.length()` in
    UTF-16 code units;
  - `Long.toString`.

Each service whose source mutates a map is a `class` with that map as a
field. Its mutators carry `modifies` clauses and state the whole new state.
Its read-only operations are methods with plain postconditions. Things the
source draws from the environment are parameters of the operation that uses
them:

- random UUIDs;
- the clock;
- the audit user;
- database identity values;
- the iteration order of a hash map.

Properties that relate several calls are stated in one of two ways. Some
are short client methods (create then read, delete twice). Others are
lemmas over the specification functions: paging loses nothing, ORDER BY ID
does not depend on the scan order, and the retry loop runs exactly as many
times as its annotation and the outcomes demand.

The comment in `RetryableExtensionTest` at line 98 speaks of "3 attempts
+ 1 original = 4 total". The extension's loop runs at most `maxAttempts`
times in all. With the default of 3, the "always fails" test fails twice
and then passes on its third run. `DefaultAnnotationMeansThreeRunsInAll`
states this.

The graphql `getProducts` computes its offsets in Java `int` arithmetic.
`GraphqlProductService.PageSlice` wraps `page * size` and `fromIndex + size`
to 32 bits as the code does, and `PageTotal` is the total Spring Data's
`PageImpl` reports for the page it is given. Below the overflow point this
is plain offset paging (`PageSliceWithoutOverflow`). Past it, page 65536 of
size 65536 returns every product, page 2^30 of size 2 is refused, and so
is page 2147483639 of size 2147483647 over ten products, whose `toIndex`
wraps below `fromIndex` (`WrappedOffsetRestartsAtFirstPage`,
`WrappedOffsetIsRefused`, `WrappedEndIsRefused`).

Where the API documentation of the jOOQ update says that null fields are
left unchanged, the code writes every column as given, nulls included. The
model follows the code (`JooqProductRepository.ProductRepository.Update`
and `JooqProductService.PartialUpdateErasesColumns`).

## Model

| member | source | states |
|---|---|---|
| Common.Utf16Length | grpc/src/main/java/io/github/mm/grpc/demo/DemoService.java:53 | `String.length()` counts UTF-16 units: between the number of characters and twice that, and equal to it when every character is in the Basic Multilingual Plane |
| Common.NatToString | jooq/src/main/java/io/github/mm/jooq/product/ProductService.java:37 | the decimal digits of a non-negative id, which read back as that id |
| Common.IntToString | jooq/src/main/java/io/github/mm/jooq/product/ProductService.java:37 | the id as concatenated into a not-found message: a '-' exactly for a negative id, then decimal digits, and the text reads back as the id |
| Common.IntToStringInjective | jooq/src/main/java/io/github/mm/jooq/product/ProductService.java:37 | two ids give the same text exactly when they are equal, so the message names the id unambiguously |
| Common.Wrap32 | graphql/src/main/java/io/github/mm/graphql/product/ProductService.java:30-31 | Java int arithmetic: the 32-bit value congruent to x modulo 2^32; x itself when it fits, x - 2^32 just above the range |
| Common.ValuesIn | grpc/src/main/java/io/github/mm/grpc/demo/DemoService.java:38-40 | copying `values()` in an iteration order gives one value per listed key, the i-th being the value under the i-th key |
| Common.EnumerationCoversKeys | test/src/main/java/io/github/mm/test/product/internal/InMemoryProductRepository.java:33-35 | an iteration order that lists distinct keys of the map, as many as it has, lists every key |
| GraphqlProductService.ValidateName | graphql/src/main/java/io/github/mm/graphql/product/ProductService.java:73-77 | passes exactly when the name is non-null and not blank; otherwise the IllegalArgumentException "Name must not be blank" |
| GraphqlProductService.PageSlice | graphql/src/main/java/io/github/mm/graphql/product/ProductService.java:26-36 | with the offset page*size wrapped to 32 bits: succeeds exactly when page >= 0, size >= 1 and, if the offset is below n, it is non-negative and at most the wrapped offset + size (subList's checks); the content is the min(size, n - offset) elements from the wrapped offset on, none once it reaches the end; every failure is `InvalidPageRequest` |
| GraphqlProductService.SliceFrom | graphql/src/main/java/io/github/mm/graphql/product/ProductService.java:31-35 | for a given wrapped fromIndex: succeeds exactly when page >= 0, size >= 1 and, if fromIndex is below n, 0 <= fromIndex <= the wrapped fromIndex + size; a success holds min(size, n - fromIndex) elements from there, none past the end |
| GraphqlProductService.PageSliceWithoutOverflow | graphql/src/main/java/io/github/mm/graphql/product/ProductService.java:26-36 | while page*size + size fits in an int, every valid request succeeds, the offset is page*size and the reported total is the snapshot size |
| GraphqlProductService.PageSliceFindsEveryElement | graphql/src/main/java/io/github/mm/graphql/product/ProductService.java:26-36 | every element j of the snapshot is found on page j / size at position j % size, as long as the last index plus the size fits in an int |
| GraphqlProductService.WrappedOffsetRestartsAtFirstPage | graphql/src/main/java/io/github/mm/graphql/product/ProductService.java:30-35 | page 65536 of size 65536 wraps to offset 0: every product comes back and the page reports a total of 2^32 plus the store size |
| GraphqlProductService.WrappedOffsetIsRefused | graphql/src/main/java/io/github/mm/graphql/product/ProductService.java:30-33 | page 2^30 of size 2 wraps to a negative fromIndex, which subList refuses |
| GraphqlProductService.WrappedEndIsRefused | graphql/src/main/java/io/github/mm/graphql/product/ProductService.java:30-33 | page 2147483639 of size 2147483647 over ten products has fromIndex 9, but toIndex wraps negative, so subList refuses the page |
| GraphqlProductService.Patched | graphql/src/main/java/io/github/mm/graphql/product/ProductService.java:52-63 | the merged product keeps the id, and a non-blank stored name stays non-blank |
| GraphqlProductService.PatchedEmptyIsIdentity | graphql/src/main/java/io/github/mm/graphql/product/ProductService.java:52-63 | an update with neither name nor data changes nothing |
| GraphqlProductService.PatchedIdempotent | graphql/src/main/java/io/github/mm/graphql/product/ProductService.java:52-63 | applying the same update twice is applying it once |
| GraphqlProductService.ProductService.constructor | graphql/src/main/java/io/github/mm/graphql/product/ProductService.java:18 | the store starts empty |
| GraphqlProductService.ProductService.GetProductById | graphql/src/main/java/io/github/mm/graphql/product/ProductService.java:20-24 | returns the stored product exactly when the id is present; otherwise not-found with the id in the message, and nothing is inserted |
| GraphqlProductService.ProductService.GetProducts | graphql/src/main/java/io/github/mm/graphql/product/ProductService.java:26-36 | succeeds exactly when page >= 0, size >= 1 and, if the wrapped offset is below the store size, subList accepts it (non-negative, at most the wrapped offset + size); always succeeds while page*size + size fits in an int, then reporting the store size as total; the content is the slice at the wrapped offset of the snapshot in iteration order, and the total is the one PageImpl reports for it |
| GraphqlProductService.ProductService.CreateProduct | graphql/src/main/java/io/github/mm/graphql/product/ProductService.java:38-44 | a null or blank name is refused and stores nothing; otherwise the product is stored under the fresh id, everything else kept |
| GraphqlProductService.ProductService.UpdateProduct | graphql/src/main/java/io/github/mm/graphql/product/ProductService.java:46-65 | absent id: not-found, before any name check; blank new name: refused; otherwise the stored product becomes the merge of old and input; every failure leaves the store unchanged |
| GraphqlProductService.ProductService.DeleteProduct | graphql/src/main/java/io/github/mm/graphql/product/ProductService.java:67-71 | true and the entry removed when present; otherwise not-found and the store unchanged |
| GraphqlProductService.CreateReadDelete | graphql/src/main/java/io/github/mm/graphql/product/ProductService.java:20-71 | a created product reads back as created; deleting it succeeds and a later read is not-found; the store ends as it began |
| GrpcDemoService.ValidateName | grpc/src/main/java/io/github/mm/grpc/demo/DemoService.java:49-56 | passes exactly for a non-blank name of at most 50 UTF-16 units; blankness is reported before length, each with its message |
| GrpcDemoService.LengthIsCountedInUtf16Units | grpc/src/main/java/io/github/mm/grpc/demo/DemoService.java:53 | names of up to 25 characters always pass and names over 50 never do; 50 BMP characters pass, but only 25 supplementary ones |
| GrpcDemoService.AllSupplementaryCountTwice | grpc/src/main/java/io/github/mm/grpc/demo/DemoService.java:53 | a string made only of supplementary characters has a UTF-16 length of twice its character count |
| GrpcDemoService.DemoService.constructor | grpc/src/main/java/io/github/mm/grpc/demo/DemoService.java:13 | the store starts empty |
| GrpcDemoService.DemoService.CreateDemo | grpc/src/main/java/io/github/mm/grpc/demo/DemoService.java:15-21 | succeeds exactly for a valid name, storing it under the fresh id; otherwise the validation error and no change |
| GrpcDemoService.DemoService.UpdateDemo | grpc/src/main/java/io/github/mm/grpc/demo/DemoService.java:23-30 | an invalid name is reported even for an absent id; a valid name on an absent id is not-found; otherwise the entry is replaced |
| GrpcDemoService.DemoService.GetDemoById | grpc/src/main/java/io/github/mm/grpc/demo/DemoService.java:32-36 | the stored demo exactly when present; otherwise not-found, nothing inserted |
| GrpcDemoService.DemoService.GetAllDemos | grpc/src/main/java/io/github/mm/grpc/demo/DemoService.java:38-40 | one stored demo per key, none missing, in iteration order |
| GrpcDemoService.DemoService.DeleteDemo | grpc/src/main/java/io/github/mm/grpc/demo/DemoService.java:42-47 | removes a present id; an absent id is not-found and changes nothing |
| GrpcDemoService.DeleteThenGet | grpc/src/main/java/io/github/mm/grpc/demo/DemoService.java:32-47 | after a successful delete, both a read and a second delete are not-found |
| HttpClientDemoService.DemoService.constructor | http-client/src/main/java/io/github/mm/http/client/demo/DemoService.java:13-14 | empty store, generator at 1, no id issued |
| HttpClientDemoService.DemoService.CreateDemo | http-client/src/main/java/io/github/mm/http/client/demo/DemoService.java:16-21 | the demo gets the generator's value, which was never issued, so nothing is overwritten; the generator advances; the incoming id is ignored |
| HttpClientDemoService.DemoService.UpdateDemo | http-client/src/main/java/io/github/mm/http/client/demo/DemoService.java:23-30 | not-found for an absent id; otherwise the entry is replaced with the path id and the new name; the generator is untouched |
| HttpClientDemoService.DemoService.GetAllDemos | http-client/src/main/java/io/github/mm/http/client/demo/DemoService.java:32-34 | one stored demo per key, none missing, each carrying its key as id |
| HttpClientDemoService.DemoService.GetDemoById | http-client/src/main/java/io/github/mm/http/client/demo/DemoService.java:36-42 | the stored demo exactly when present; otherwise not-found |
| HttpClientDemoService.DemoService.DeleteDemo | http-client/src/main/java/io/github/mm/http/client/demo/DemoService.java:44-49 | removes a present id, which stays issued; an absent id is not-found and changes nothing |
| HttpClientDemoService.FirstIdsAreOneAndTwo | http-client/src/main/java/io/github/mm/http/client/demo/DemoService.java:14-21 | on a fresh service the first two creations get ids 1 and 2 |
| HttpClientDemoService.DeleteThenCreate | http-client/src/main/java/io/github/mm/http/client/demo/DemoService.java:16-49 | a deleted id is never handed out again |
| HttpClientInternalDemoService.DemoService.constructor | http-client/src/main/java/io/github/mm/http/client/demo/internal/DemoService.java:14 | the store starts empty |
| HttpClientInternalDemoService.DemoService.CreateDemo | http-client/src/main/java/io/github/mm/http/client/demo/internal/DemoService.java:16-21 | the demo is stored under the fresh UUID with its name; the incoming id is discarded |
| HttpClientInternalDemoService.DemoService.UpdateDemo | http-client/src/main/java/io/github/mm/http/client/demo/internal/DemoService.java:23-30 | not-found for an absent id; otherwise replaced with the path id |
| HttpClientInternalDemoService.DemoService.GetAllDemos | http-client/src/main/java/io/github/mm/http/client/demo/internal/DemoService.java:32-34 | one stored demo per key, none missing, each carrying its key as id |
| HttpClientInternalDemoService.DemoService.GetDemoById | http-client/src/main/java/io/github/mm/http/client/demo/internal/DemoService.java:36-42 | the stored demo exactly when present; otherwise not-found |
| HttpClientInternalDemoService.DemoService.DeleteDemo | http-client/src/main/java/io/github/mm/http/client/demo/internal/DemoService.java:44-49 | removes a present id; an absent id is not-found and changes nothing |
| HttpClientInternalDemoService.DeleteTwice | http-client/src/main/java/io/github/mm/http/client/demo/internal/DemoService.java:44-49 | a second delete of the same id is not-found and leaves the store as the first left it |
| TestProductModel.NewProduct | test/src/main/java/io/github/mm/test/product/model/Product.java:19-26 | accepts exactly a non-blank name and a non-null, non-negative price; the name is checked first; the id is never checked |
| TestProductModel.ZeroPriceIsAccepted | test/src/main/java/io/github/mm/test/product/model/Product.java:23-25 | a price of zero is accepted, although the rejection message says "positive" |
| TestProductModel.ReconstructionSucceeds | test/src/main/java/io/github/mm/test/product/model/Product.java:19-26 | rebuilding a product from its own components, with any id, succeeds and changes only the id |
| TestProductRepository.InMemoryProductRepository.constructor | test/src/main/java/io/github/mm/test/product/internal/InMemoryProductRepository.java:13-14 | empty store, generator at 1 |
| TestProductRepository.InMemoryProductRepository.Save | test/src/main/java/io/github/mm/test/product/internal/InMemoryProductRepository.java:17-25 | a product without id gets the generator's value and the generator advances; one with an id replaces whatever is under it |
| TestProductRepository.InMemoryProductRepository.FindById | test/src/main/java/io/github/mm/test/product/internal/InMemoryProductRepository.java:28-30 | present exactly when stored, and then the stored product |
| TestProductRepository.InMemoryProductRepository.FindAll | test/src/main/java/io/github/mm/test/product/internal/InMemoryProductRepository.java:33-35 | one product per key in iteration order, none missing |
| TestProductRepository.InMemoryProductRepository.DeleteById | test/src/main/java/io/github/mm/test/product/internal/InMemoryProductRepository.java:38-40 | removes the key if present; never an error; the generator is untouched |
| TestProductRepository.InMemoryProductRepository.Clear | test/src/main/java/io/github/mm/test/product/internal/InMemoryProductRepository.java:43-46 | empties the store and resets the generator to 1 |
| TestProductRepository.SaveThenFind | test/src/main/java/io/github/mm/test/product/internal/InMemoryProductRepository.java:17-30 | whatever save returns has an id and is found under it |
| TestProductRepository.ClearThenSave | test/src/main/java/io/github/mm/test/product/internal/InMemoryProductRepository.java:17-46 | after clear the next new product gets id 1 and is the only one stored |
| TestProductService.ProductService.constructor | test/src/main/java/io/github/mm/test/product/ProductService.java:13-15 | wraps a repository whose stored ids all lie below its generator |
| TestProductService.ProductService.CreateProduct | test/src/main/java/io/github/mm/test/product/ProductService.java:17-20 | fails exactly as the product constructor does, storing nothing; otherwise the product gets a never-used id and is stored under it |
| TestProductService.ProductService.GetProductById | test/src/main/java/io/github/mm/test/product/ProductService.java:22-26 | the stored product exactly when present; otherwise not-found with the id |
| TestProductService.ProductService.GetAllProducts | test/src/main/java/io/github/mm/test/product/ProductService.java:28-30 | one product per key in iteration order, none missing |
| TestProductService.ProductService.UpdatePrice | test/src/main/java/io/github/mm/test/product/ProductService.java:32-36 | not-found first, then the price check; otherwise the same id and name with the new price replace the entry; the generator never moves |
| TestProductService.ProductService.DeleteProduct | test/src/main/java/io/github/mm/test/product/ProductService.java:38-40 | removes the key if present; never an error |
| TestProductService.ProductService.ClearAll | test/src/main/java/io/github/mm/test/product/ProductService.java:42-44 | empties the store and resets the generator |
| TestProductService.SuccessiveCreatesGetDistinctIds | test/src/main/java/io/github/mm/test/product/ProductService.java:17-20 | two successful creations get different ids, both stored |
| TestProductService.DeleteThenGet | test/src/main/java/io/github/mm/test/product/ProductService.java:22-40 | after delete, reading is not-found and a second delete is no error |
| TestProductService.ClearThenList | test/src/main/java/io/github/mm/test/product/ProductService.java:28-44 | after clearAll the listing is empty |
| TestOrderModel.NewOrder | test/src/main/java/io/github/mm/test/order/model/Order.java:5-9 | accepts exactly a non-null, non-blank customer id, with the other components as given; otherwise "Customer ID cannot be blank" |
| TestOrderRepository.InMemoryOrderRepository.constructor | test/src/main/java/io/github/mm/test/order/internal/InMemoryOrderRepository.java:12-14 | empty store, generator at 1 |
| TestOrderRepository.InMemoryOrderRepository.Save | test/src/main/java/io/github/mm/test/order/internal/InMemoryOrderRepository.java:17-25 | an order without id gets the generator's value and the generator advances; one with an id is stored as given |
| TestOrderService.RequestIdGenerator.constructor | test/src/main/java/io/github/mm/test/order/internal/RequestIdGenerator.java:8-9 | nothing generated yet |
| TestOrderService.RequestIdGenerator.Generate | test/src/main/java/io/github/mm/test/order/internal/RequestIdGenerator.java:11-13 | "REQ-" followed by the UUID |
| TestOrderService.EventLog.constructor | test/src/main/java/io/github/mm/test/order/OrderService.java:16 | nothing published yet |
| TestOrderService.EventLog.Publish | test/src/main/java/io/github/mm/test/order/OrderService.java:32 | the event is appended to what was published |
| TestOrderService.OrderService.constructor | test/src/main/java/io/github/mm/test/order/OrderService.java:18-22 | keeps the three collaborators |
| TestOrderService.OrderService.CreateOrder | test/src/main/java/io/github/mm/test/order/OrderService.java:24-35 | a request id is always drawn first; a blank customer id then fails with nothing saved or published; otherwise the CREATED order is saved under the next id and exactly one matching event is published |
| TestOrderService.TwoOrdersInCallOrder | test/src/main/java/io/github/mm/test/order/OrderService.java:24-35 | two orders created in a row get increasing ids and their events appear in call order |
| TestOrderService.FirstOrderGetsIdOne | test/src/main/java/io/github/mm/test/order/internal/InMemoryOrderRepository.java:14-22 | on a fresh repository the first order gets id 1 |
| TestBackgroundTaskService.IncrementAndGet | test/src/main/java/io/github/mm/test/order/internal/BackgroundTaskService.java:23 | the result is a 32-bit int congruent to x + 1 modulo 2^32 |
| TestBackgroundTaskService.IncrementGrowsExceptAtMax | test/src/main/java/io/github/mm/test/order/internal/BackgroundTaskService.java:23 | the increment adds exactly one, and grows the value, exactly when x is below the largest int |
| TestBackgroundTaskService.BackgroundTaskService.constructor | test/src/main/java/io/github/mm/test/order/internal/BackgroundTaskService.java:17-18 | stopped, count 0 |
| TestBackgroundTaskService.BackgroundTaskService.ScheduledTask | test/src/main/java/io/github/mm/test/order/internal/BackgroundTaskService.java:20-26 | one wrapping increment while running, nothing while stopped; the count does not decrease below the wrap point |
| TestBackgroundTaskService.BackgroundTaskService.Start | test/src/main/java/io/github/mm/test/order/internal/BackgroundTaskService.java:32-36 | running, count kept |
| TestBackgroundTaskService.BackgroundTaskService.Stop | test/src/main/java/io/github/mm/test/order/internal/BackgroundTaskService.java:38-42 | stopped, count kept |
| TestBackgroundTaskService.BackgroundTaskService.GetExecutionCount | test/src/main/java/io/github/mm/test/order/internal/BackgroundTaskService.java:28-30 | the counter's value, always a 32-bit int |
| TestBackgroundTaskService.BackgroundTaskService.IsRunning | test/src/main/java/io/github/mm/test/order/internal/BackgroundTaskService.java:44-47 | the flag the last start or stop set |
| TestBackgroundTaskService.BackgroundTaskService.IsPauseable | test/src/main/java/io/github/mm/test/order/internal/BackgroundTaskService.java:49-52 | always true |
| TestBackgroundTaskService.Replay | test/src/main/java/io/github/mm/test/order/internal/BackgroundTaskService.java:20-47 | replaying lifecycle events keeps the counter a 32-bit int |
| TestBackgroundTaskService.TicksWhileRunning | test/src/main/java/io/github/mm/test/order/internal/BackgroundTaskService.java:20-26 | the ticks that find the task running are at most all the events |
| TestBackgroundTaskService.ReplayCountsRunningTicks | test/src/main/java/io/github/mm/test/order/internal/BackgroundTaskService.java:20-47 | below the wrap point the final count is the initial count plus the ticks that found the task running, so it never decreases |
| TestBackgroundTaskService.ReplayConcatenates | test/src/main/java/io/github/mm/test/order/internal/BackgroundTaskService.java:32-47 | replay composes over concatenation; after a start isRunning is true and after a stop it is false |
| TestBackgroundTaskService.Drive | test/src/main/java/io/github/mm/test/order/internal/BackgroundTaskService.java:20-47 | any sequence of start, stop and tick calls leaves the object in the state Replay predicts |
| TestBackgroundTaskService.ObserveLifecycle | test/src/main/java/io/github/mm/test/order/internal/BackgroundTaskService.java:20-47 | as seen through the getters: running from start until stop; a tick while running adds one wrapping increment, start and stop keep the count |
| TestRetryableExtension.UnwrapException | test/src/test/java/io/github/mm/test/extension/RetryableExtension.java:79-85 | the cause of a reflective wrapper that has one; anything else, a wrapper without a cause included, comes back as it is |
| TestRetryableExtension.ReinvokedFailureUnwraps | test/src/test/java/io/github/mm/test/extension/RetryableExtension.java:79-85 | a failure delivered wrapped by reflective invocation is unwrapped back to the test's own throwable |
| TestRetryableExtension.Attempts | test/src/test/java/io/github/mm/test/extension/RetryableExtension.java:30-73 | one store write per run; a throwable escapes only after every remaining attempt has run, and otherwise the loop ends right after a run that passed |
| TestRetryableExtension.Intercept | test/src/test/java/io/github/mm/test/extension/RetryableExtension.java:15-74 | without @Retryable the test fails exactly when its one run raised; with it, a throwable escapes only after maxAttempts runs, and a normal return follows a run that passed |
| TestRetryableExtension.InterceptTestMethod | test/src/test/java/io/github/mm/test/extension/RetryableExtension.java:15-74 | the loop does exactly what the recursive definition of the interception does: runs, store writes and the escaping throwable |
| TestRetryableExtension.AttemptsShape | test/src/test/java/io/github/mm/test/extension/RetryableExtension.java:30-42 | from any attempt on: at least one and at most the remaining runs, one store write each holding the run's index, proceed() only for run 0 |
| TestRetryableExtension.AttemptsStopAtFirstPass | test/src/test/java/io/github/mm/test/extension/RetryableExtension.java:44-52 | failures followed by a pass: exactly those runs and nothing escapes |
| TestRetryableExtension.AttemptsAllFail | test/src/test/java/io/github/mm/test/extension/RetryableExtension.java:54-71 | all remaining runs fail: all of them happen and the last one's unwrapped failure escapes |
| TestRetryableExtension.RetriesAreBounded | test/src/test/java/io/github/mm/test/extension/RetryableExtension.java:27-73 | with maxAttempts n: at most n runs and none when n <= 0; the first via proceed(), the rest reflective; "retry_count" holds each run's index |
| TestRetryableExtension.RetryStopsAtFirstPass | test/src/test/java/io/github/mm/test/extension/RetryableExtension.java:44-52 | if run k + 1 is the first to pass (k < n), exactly k + 1 runs happen and the test passes |
| TestRetryableExtension.RetryRethrowsLastFailure | test/src/test/java/io/github/mm/test/extension/RetryableExtension.java:54-71 | if all n >= 2 runs fail, n runs happen and the last run's own throwable is rethrown |
| TestRetryableExtension.WithoutAnnotationRunsOnce | test/src/test/java/io/github/mm/test/extension/RetryableExtension.java:19-25 | without @Retryable the test runs once through proceed() and its own outcome propagates |
| TestRetryableExtension.DefaultAnnotationMeansThreeRunsInAll | test/src/test/java/io/github/mm/test/extension/Retryable.java:14 | under the default of 3, two failures then a pass make three runs in all and the test passes |
| FlywayProduct.NotBlankIsNotIsBlank | flyway/src/main/java/io/github/mm/flyway/product/domain/Product.java:20 | @NotBlank, checked by trimming characters up to U+0020, accepts U+3000 that String.isBlank calls blank, and refuses U+0001 that isBlank does not |
| FlywayProduct.WithUpdatedFields | flyway/src/main/java/io/github/mm/flyway/product/domain/Product.java:52-75 | replaces the seven business components and the update pair; id, createdAt and createdBy are kept |
| FlywayProduct.WithAuditFields | flyway/src/main/java/io/github/mm/flyway/product/domain/Product.java:77-80 | both timestamps become now and both users the user name; id and business components are kept |
| FlywayProduct.WithAuditFieldsLastWins | flyway/src/main/java/io/github/mm/flyway/product/domain/Product.java:77-80 | a later withAuditFields overrides an earlier one, so it is idempotent |
| FlywayProduct.WithUpdatedFieldsLastWins | flyway/src/main/java/io/github/mm/flyway/product/domain/Product.java:52-75 | a later withUpdatedFields overrides an earlier one |
| FlywayProduct.UpdateKeepsCreationAudit | flyway/src/main/java/io/github/mm/flyway/product/domain/Product.java:52-80 | an update after creation keeps the creation time and user and records the updater's |
| FlywayProduct.WithAuditFieldsValidity | flyway/src/main/java/io/github/mm/flyway/product/domain/Product.java:20-50 | stamping a product with valid business components yields a valid product exactly when the user name is at most 100 units |
| FlywayProduct.WithUpdatedFieldsValidity | flyway/src/main/java/io/github/mm/flyway/product/domain/Product.java:20-75 | the updated product is valid exactly when the new components are, the updater fits and the kept creator fits |
| FlywayProductMapper.MapStatus | flyway/src/main/java/io/github/mm/flyway/product/internal/ProductMapper.java:78-80 | the requested status, ACTIVE when none was sent |
| FlywayProductMapper.ToResponse | flyway/src/main/java/io/github/mm/flyway/product/internal/ProductMapper.java:23-38 | null exactly for null; otherwise the id, the business components and the timestamps unchanged |
| FlywayProductMapper.ToEntity | flyway/src/main/java/io/github/mm/flyway/product/internal/ProductMapper.java:40-57 | null exactly for null; otherwise an entity without id |
| FlywayProductMapper.ToEntityWithId | flyway/src/main/java/io/github/mm/flyway/product/internal/ProductMapper.java:59-76 | null exactly for null; otherwise the given id, the requested components with the status defaulted, and no audit columns |
| FlywayProductMapper.ToEntityOverloadsAgree | flyway/src/main/java/io/github/mm/flyway/product/internal/ProductMapper.java:40-76 | the two toEntity overloads differ in the id alone |
| FlywayProductMapper.ToEntityHasStatus | flyway/src/main/java/io/github/mm/flyway/product/internal/ProductMapper.java:71 | a mapped entity always has a status |
| FlywayProductMapper.ValidRequestGivesValidEntity | flyway/src/main/java/io/github/mm/flyway/product/internal/ProductMapper.java:59-76 | a request meeting the business constraints maps to an entity meeting every declared constraint |
| FlywayProductMapper.ResponseEchoesRequest | flyway/src/main/java/io/github/mm/flyway/product/internal/ProductMapper.java:23-76 | the response to a mapped request echoes the request with the defaulted status and no timestamps, exactly when a status was sent |
| FlywayProductService.ProductService.constructor | flyway/src/main/java/io/github/mm/flyway/product/ProductService.java:22-26 | an empty table |
| FlywayProductService.ProductService.FindById | flyway/src/main/java/io/github/mm/flyway/product/ProductService.java:32-34 | the stored row exactly when present; otherwise not-found with the id |
| FlywayProductService.ProductService.Save | flyway/src/main/java/io/github/mm/flyway/product/ProductService.java:39 | no id: inserted under the generated id; an existing id: that row replaced; an unknown id: refused with no change |
| FlywayProductService.ProductService.Create | flyway/src/main/java/io/github/mm/flyway/product/ProductService.java:36-40 | the product stamped with the clock and the user in both audit pairs, then saved as save does |
| FlywayProductService.ProductService.Update | flyway/src/main/java/io/github/mm/flyway/product/ProductService.java:42-56 | not-found for an absent id with no change; otherwise the stored row takes the argument's components and the new update stamp, keeping id and creation stamp |
| FlywayProductService.ProductService.DeleteById | flyway/src/main/java/io/github/mm/flyway/product/ProductService.java:58-61 | removes the row if present; an absent id is not an error |
| FlywayProductService.CreateThenFind | flyway/src/main/java/io/github/mm/flyway/product/ProductService.java:32-40 | a created product is found under its generated id with both audit pairs equal to the creation stamp |
| FlywayProductService.CreateThenUpdate | flyway/src/main/java/io/github/mm/flyway/product/ProductService.java:36-56 | after create then update the creation stamp and id remain and the components and update stamp are the new ones |
| FlywayProductService.DeleteThenFind | flyway/src/main/java/io/github/mm/flyway/product/ProductService.java:32-61 | after delete the row is not found, and deleting again is no error |
| JooqProductRepository.InsertAscending | jooq/src/main/java/io/github/mm/jooq/product/repository/ProductRepository.java:70 | inserting a new id into an ascending sequence keeps it ascending and adds exactly that id |
| JooqProductRepository.SortAscending | jooq/src/main/java/io/github/mm/jooq/product/repository/ProductRepository.java:70 | ORDER BY ID: an ascending sequence of exactly the scanned ids |
| JooqProductRepository.Matches | jooq/src/main/java/io/github/mm/jooq/product/repository/ProductRepository.java:56-64 | without filters every row matches; a status filter never keeps a NULL status and a category filter never a NULL category |
| JooqProductRepository.AscendingIsUnique | jooq/src/main/java/io/github/mm/jooq/product/repository/ProductRepository.java:70 | two ascending sequences with the same elements are equal |
| JooqProductRepository.MatchingIn | jooq/src/main/java/io/github/mm/jooq/product/repository/ProductRepository.java:56-64 | the scanned ids whose rows satisfy the WHERE condition, no others, without repeats |
| JooqProductRepository.Window | jooq/src/main/java/io/github/mm/jooq/product/repository/ProductRepository.java:71-72 | LIMIT size OFFSET offset keeps min(size, n - offset) ids from the offset on, none past the end |
| JooqProductRepository.WindowFindsEveryId | jooq/src/main/java/io/github/mm/jooq/product/repository/ProductRepository.java:71-72 | the j-th ordered id is on page j / size at position j % size |
| JooqProductRepository.ProductRepository.constructor | jooq/src/main/java/io/github/mm/jooq/product/repository/ProductRepository.java:26-28 | an empty table |
| JooqProductRepository.ProductRepository.MatchingIds | jooq/src/main/java/io/github/mm/jooq/product/repository/ProductRepository.java:56-66 | the ids the condition keeps: stored rows only, each satisfying the WHERE condition |
| JooqProductRepository.ProductRepository.OrderedMatches | jooq/src/main/java/io/github/mm/jooq/product/repository/ProductRepository.java:55-70 | the matching ids in ascending order: exactly the matching set, as many as it has |
| JooqProductRepository.ProductRepository.Create | jooq/src/main/java/io/github/mm/jooq/product/repository/ProductRepository.java:30-48 | inserts the request's columns, the status name (ACTIVE by default), creation time and user, update columns NULL, under a new identity, and returns that row |
| JooqProductRepository.ProductRepository.FindById | jooq/src/main/java/io/github/mm/jooq/product/repository/ProductRepository.java:50-53 | the row with that id exactly when there is one |
| JooqProductRepository.ProductRepository.FindAll | jooq/src/main/java/io/github/mm/jooq/product/repository/ProductRepository.java:55-75 | the total counts the matching rows; the content is the page at the offset of the matching rows ordered by id, each a stored matching row |
| JooqProductRepository.ProductRepository.PageIds | jooq/src/main/java/io/github/mm/jooq/product/repository/ProductRepository.java:66-72 | the ids on the requested page: as many as remain after the offset, at most the page size, each the matching id at its offset position, in increasing order |
| JooqProductRepository.ProductRepository.RowsOf | jooq/src/main/java/io/github/mm/jooq/product/repository/ProductRepository.java:68-73 | the stored rows under the given ids, in that order |
| JooqProductRepository.ProductRepository.Update | jooq/src/main/java/io/github/mm/jooq/product/repository/ProductRepository.java:77-94 | absent id: empty and no change; otherwise every business column written as given (nulls included), update time and user set, creation columns kept, the row returned |
| JooqProductRepository.ProductRepository.DeleteById | jooq/src/main/java/io/github/mm/jooq/product/repository/ProductRepository.java:96-99 | true exactly when a row was there; the row is gone |
| JooqProductRepository.BlankCategoryFiltersNothing | jooq/src/main/java/io/github/mm/jooq/product/repository/ProductRepository.java:62-64 | a blank category filters like no category |
| JooqProductRepository.LowerIsIdempotent | jooq/src/main/java/io/github/mm/jooq/product/repository/ProductRepository.java:63 | lower-casing twice is lower-casing once |
| JooqProductRepository.LowerKeepsBlankness | jooq/src/main/java/io/github/mm/jooq/product/repository/ProductRepository.java:62-63 | lower-casing neither creates nor removes blankness |
| JooqProductRepository.CategoryFilterIgnoresCase | jooq/src/main/java/io/github/mm/jooq/product/repository/ProductRepository.java:62-64 | asking for a category in lower case keeps the same rows |
| JooqProductRepository.UnfilteredTotalIsRowCount | jooq/src/main/java/io/github/mm/jooq/product/repository/ProductRepository.java:56-66 | without filters every row matches |
| JooqProductRepository.CategoryNarrowsTheMatch | jooq/src/main/java/io/github/mm/jooq/product/repository/ProductRepository.java:56-64 | each added filter can only narrow the matching rows |
| JooqProductRepository.ScanOrderDoesNotMatter | jooq/src/main/java/io/github/mm/jooq/product/repository/ProductRepository.java:68-73 | any two scans of the table give the same ordered matches, so the page does not depend on storage order |
| JooqProductMapper.ValueOf | jooq/src/main/java/io/github/mm/jooq/product/rest/dto/ProductStatus.java:6-13 | succeeds exactly on a constant's name, giving that constant; otherwise IllegalArgumentException "No enum constant ..." |
| JooqProductMapper.ValueOfInvertsName | jooq/src/main/java/io/github/mm/jooq/product/rest/dto/ProductStatus.java:6-13 | valueOf(name()) gives the constant back |
| JooqProductMapper.ToProduct | jooq/src/main/java/io/github/mm/jooq/product/internal/ProductMapper.java:11-29 | null for null; fails exactly on an unknown status name; otherwise every column copied and the status name mapped back to its constant, NULL staying null |
| JooqProductMapper.WrittenStatusesAreKnown | jooq/src/main/java/io/github/mm/jooq/product/repository/ProductRepository.java:38-40 | every status value create and update write is one the mapper accepts |
| JooqProductMapper.ToProductRecoversStatus | jooq/src/main/java/io/github/mm/jooq/product/internal/ProductMapper.java:24 | a row written with a constant's name maps back to that constant |
| JooqProductService.MapAll | jooq/src/main/java/io/github/mm/jooq/product/ProductService.java:41 | mapping a page succeeds exactly when every row's status is known, each row mapped in place; otherwise the error is valueOf's "No enum constant" for the first unknown status |
| JooqProductService.FirstUnknown | jooq/src/main/java/io/github/mm/jooq/product/ProductService.java:41 | the first row of the page whose status names no constant: every earlier row's status is known |
| JooqProductService.FirstUnknownAt | jooq/src/main/java/io/github/mm/jooq/product/ProductService.java:41 | the first id in a list whose stored status names no constant: every earlier id's status is known |
| JooqProductService.MapPage | jooq/src/main/java/io/github/mm/jooq/product/ProductService.java:41 | Page.map(toProduct) succeeds exactly when every row's status is known, otherwise fails with valueOf's error for the first unknown status; a success keeps the total and maps each row in place |
| JooqProductService.FetchedStatuses | jooq/src/main/java/io/github/mm/jooq/product/ProductService.java:41 | a page fetched under a list of ids maps exactly when every row under those ids has a known status, so always when every matching row does; a failure is valueOf's error for the first id with an unknown status; a success keeps the total and maps the row under each id in place |
| JooqProductService.ProductService.constructor | jooq/src/main/java/io/github/mm/jooq/product/ProductService.java:23-26 | keeps the repository |
| JooqProductService.ProductService.CreateProduct | jooq/src/main/java/io/github/mm/jooq/product/ProductService.java:28-31 | the created product carries the request, the status (ACTIVE by default), the creation time and "system" as creator, and is stored under a new id |
| JooqProductService.ProductService.GetProductById | jooq/src/main/java/io/github/mm/jooq/product/ProductService.java:33-38 | not-found for an absent id; otherwise the mapped row, failing exactly on an unknown status, with valueOf's IllegalArgumentException "No enum constant ...<status>" |
| JooqProductService.ProductService.FindAll | jooq/src/main/java/io/github/mm/jooq/product/ProductService.java:40-42 | fails exactly when a row on the requested page (the matching ids ordered by id, windowed at the offset) has an unknown status, with valueOf's error for the first such row; otherwise the total is kept and the content is the repository's page mapped element by element |
| JooqProductService.ProductService.UpdateProduct | jooq/src/main/java/io/github/mm/jooq/product/ProductService.java:44-50 | not-found with no change for an absent id; otherwise the product carries exactly the request's fields, the creation stamp and "system" as updater, and the stored row maps to that product; other rows are kept |
| JooqProductService.ProductService.DeleteProduct | jooq/src/main/java/io/github/mm/jooq/product/ProductService.java:52-57 | succeeds exactly when the row existed, otherwise not-found; the row is gone either way |
| JooqProductService.CreateThenGet | jooq/src/main/java/io/github/mm/jooq/product/ProductService.java:28-38 | a created product reads back equal to what creation returned |
| JooqProductService.UpdateThenGet | jooq/src/main/java/io/github/mm/jooq/product/ProductService.java:33-50 | an updated product reads back equal to what the update returned |
| JooqProductService.PartialUpdateErasesColumns | jooq/src/main/java/io/github/mm/jooq/product/repository/ProductRepository.java:77-94 | an update that sends only a name erases description, category and status |
| JooqProductService.DeleteTwice | jooq/src/main/java/io/github/mm/jooq/product/ProductService.java:52-57 | deleting succeeds once and is not-found the second time |

## Left out

- Concurrency: the `ConcurrentHashMap` stores, `AtomicLong`/`AtomicInteger` atomicity, the `volatile` flag and `@Transactional` boundaries are modelled as sequential, single-threaded calls.
- Hash iteration order: `values()` order and the database's scan order are parameters (`order`, `scanOrder`), constrained only to list each key once.
- Random UUIDs, `clock.now()`/`LocalDateTime.now()`, `auditProvider.user()` and database identity values are parameters; freshness of a UUID is a precondition.
- Logging (SLF4J calls in the retry extension and the background task) is left out.
- Controllers, REST/GraphQL/gRPC adapters, the graphql `ProductMapper`, the flyway `toPageModel`, and the flyway `findAll(pageable)` pass-through are not part of this model.
- GraphqlProductService.ProductService.GetProducts: the IndexOutOfBoundsException and IllegalArgumentException of `List.subList` and the IllegalArgumentException of `PageRequest.of` are collapsed into one `InvalidPageRequest`, without their messages.
- GraphqlProductService.PageSliceFindsEveryElement: proved only while the last index plus the page size fits in an int; beyond that the 32-bit `toIndex` wraps and the page is refused.
- JooqProductRepository.ProductRepository.FindAll: `page * size` is unbounded; the `(int)` cast of the offset and `long` overflow are not modelled.
- JooqProductRepository: the `BigDecimal` price is a whole number of cents (`Cents`), so a price with more than two fraction digits cannot be expressed and the BigDecimal scale (1299.9 against 1299.90) is not captured.
- JooqProductRepository.ProductRepository.Update: database NOT NULL constraints and column defaults are not modelled, so a NULL written into a NOT NULL column is not refused.
- JooqProductRepository.LowerAscii: SQL `lower()` is modelled on the letters A to Z only; case folding of other letters is not modelled.
- FlywayProduct: prices are whole cents, so a BigDecimal with more than two fraction digits cannot be expressed, and the `@Digits` check reduces to the range bound; enum constants other than ACTIVE are carried by name.
- FlywayProductService.ProductService.Save: the Spring Data JDBC refusal of an update that matched no row is `UpdateOfMissingRow`; the library's exception type and message are not modelled.
- TestProductModel: the Double price is a real number; NaN and infinities are not modelled.
- Long ids are unbounded integers; `AtomicLong` overflow is not modelled. The 32-bit `AtomicInteger` counter of the background task is.
- TestBackgroundTaskService.ReplayCountsRunningTicks: "the count never decreases" is proved only while it stays below the largest int, since the counter wraps there.
- TestBackgroundTaskService.BackgroundTaskService.ScheduledTask: the fixed-delay scheduling itself is not modelled; a tick is a call the caller makes.
- TestRetryableExtension.InterceptTestMethod: what the test body does on each run is given as a list of outcomes; the JUnit lifecycle around proceed() (`@BeforeEach`/`@AfterEach`) and the `ExtensionContext.Store` beyond the retry counts are not modelled.
- Lookups with a null id (`findById(null)` and the like) are not modelled; ids are always present values.
