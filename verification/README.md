# MarketSync-EA account registry service, modelled in Dafny

The MarketSync-EA backend is a small HTTP service. It keeps one in-memory list
of trading-account records (`accountData`). Four routes read or change that list:

- `POST /api/sync` (static sync). It upserts an account by `account_number`,
  overwrites the account's ten profile fields, and appends a strategy from a
  fixed catalog (`determineStrategyDetails`).
- `POST /api/sync/:accountNumber` (dynamic sync). It validates six metrics and
  appends a time-stamped snapshot to the account's `account_updates`.
- `GET /api/strategy/:accountNumber`. It returns the account's strategy type
  and its most recent strategy.
- `GET /api/accounts`. It returns the whole list and its length.

The model is functional. The registry is an immutable `seq<Account>`. Each
handler is a pure function from the registry, the request and the clock reading
to a `Step` (the new registry plus a response, which is a status and a payload).
A request sequence is folded by `Service.Run`.

Files and modules:

- `jsvalue.dfy` (`JsValue`): request-body values. It has `Truthy` (JavaScript's
  `!x`) and `TypeOf` (`typeof x`). A body is a `map<string, Value>`, and a
  missing key reads as `Undefined`.
- `catalog.dfy` (`StrategyCatalog`): the deterministic strategy catalog.
- `registry.dfy` (`Registry`): records, the first-match lookup `find`, and the
  registry invariants (unique keys; append-only evolution).
- `handlers.dfy` (`Handlers`): the four route handlers.
- `service.dfy` (`Service`): request dispatch, runs over request sequences, and
  the invariants proved over them.

Time is a natural number of milliseconds since the epoch, passed in as `now`.

## Model

| member | source | states |
|---|---|---|
| JsValue.RequiredStringIsNonEmptyString | backend/src/index.js:60-61 | The static-sync field check `!x \|\| typeof x !== 'string'` accepts exactly the non-empty strings. It refuses numbers, booleans, null, objects, undefined and `""`. |
| StrategyCatalog.Determine | backend/src/index.js:12-53 | The catalog is total. Every label yields a `scalping` strategy created at `now`, with a positive validity, expiring exactly validity × 1000 ms after `now`. |
| StrategyCatalog.ShortTermBundle | backend/src/index.js:14-26 | `"short term gain"` gives validity 3600 s, expiry now + 3 600 000 ms, targetProfit 1000, maxLoss 500, maxPing 100, maxSlippage 10, stopLoss 15, takeProfit 50. |
| StrategyCatalog.LongTermBundle | backend/src/index.js:27-39 | `"long term gain"` gives validity 30 days (2 592 000 s), targetProfit 5000, maxLoss 2000, maxPing 200, maxSlippage 20, stopLoss 30, takeProfit 100. |
| StrategyCatalog.FallbackBundle | backend/src/index.js:40-52 | Every other label gives the default bundle: 30 days, targetProfit 500, maxLoss 200, maxPing 150, maxSlippage 15, stopLoss 10, takeProfit 25. |
| StrategyCatalog.BranchRoundTrip | backend/src/index.js:12-53 | The branch a label selects can be read back from the strategy it produced. |
| StrategyCatalog.SameBundleIffSameBranch | backend/src/index.js:13-53 | At the same instant, two labels give equal strategies if and only if they select the same switch branch. Matching is exact, so all unknown labels are alike. |
| StrategyCatalog.TimeShift | backend/src/index.js:16-19 | Only the two timestamps depend on the clock. Generating `d` ms later shifts creation and expiry by `d` and leaves every other field as it was. |
| Registry.FindIndex | backend/src/index.js:65 | `find` by account number returns the first record with that key. It returns none exactly when no record has that key. |
| Registry.FindUnique | backend/src/index.js:65 | When keys are unique, `find` resolves a key to the one record that carries it. |
| Registry.UniqueCount | backend/src/index.js:150-155 | When keys are unique, the registry length equals the number of distinct account numbers. |
| Handlers.SyncStatic | backend/src/index.js:57-100 | Returns 400, and changes nothing, exactly when `account_number` or `strategy_type` is not a non-empty string. Otherwise it responds 200 with the catalog strategy for the type. An unseen number is appended at the end with no updates and exactly that strategy. A known number keeps its position, key and updates and gets the new profile (absent fields become `Undefined`). It also gets exactly one appended strategy, the registry keeps its length, and all other records are untouched. |
| Handlers.SyncDynamic | backend/src/index.js:103-130 | Returns 400 with `{ error: 'Invalid dynamic data received' }` exactly when one of the six metrics is falsy. Returns 404 with `{ error: 'Account not found' }` exactly when the metrics are valid and the account is unknown. Neither changes anything. Otherwise it returns 200 with `{ message: 'Dynamic data received successfully' }`. In that case only that account's `account_updates` changes: it grows by exactly one snapshot, which holds the submitted values and the arrival time. |
| Handlers.RetrieveStrategy | backend/src/index.js:133-147 | Never changes the registry. Returns 404 exactly when the account is unknown or has no strategy. Otherwise returns the account's current strategy type and its last strategy. |
| Handlers.ListAccounts | backend/src/index.js:150-155 | Never changes the registry. Returns 200, with a count equal to the registry length and every record in insertion order. |
| Service.RejectedLeavesStateUnchanged | backend/src/index.js:57-155 | Any response other than 200 leaves the registry unchanged. Both GET routes never change it. |
| Service.OnlyNewAccountsGrow | backend/src/index.js:65-94 | The registry grows only on a valid static sync of an unseen number, and then by exactly one record. An upsert of a known account never grows it. |
| Service.HandleExtends | backend/src/index.js:79-124 | Every handler is append-only. No record is dropped, moved or re-keyed, and no update or strategy is removed or rewritten. |
| Service.HandlePreservesWellFormed | backend/src/index.js:65-97 | Every handler preserves three facts: account numbers are unique, every record holds at least one strategy, and every stored strategy type is a non-empty string. |
| Service.RunPreservesWellFormed | backend/src/index.js:65-97 | Those invariants hold after any sequence of requests. |
| Service.ReachableIsWellFormed | backend/src/index.js:9-97 | Starting from the empty list, every reachable registry has unique account numbers. |
| Service.RunExtends | backend/src/index.js:79-124 | Across any request sequence, the registry, `account_updates` and `strategies` are append-only. |
| Service.HandleNumbers | backend/src/index.js:65-82 | A request adds to the set of known account numbers exactly the number of an accepted static sync, and nothing else. |
| Service.RunNumbers | backend/src/index.js:65-82 | After a request sequence, the known numbers are the initial ones plus every number an accepted static sync carried. |
| Service.ListingCountsSyncedAccounts | backend/src/index.js:150-155 | From an empty start, the listing's `count` equals the number of distinct account numbers ever accepted by a static sync. |
| Service.ListingEchoesSyncedProfile | backend/src/index.js:67-93 | Right after a valid static sync, `GET /api/accounts` lists that account with every profile field exactly as the body carried it. That includes arrays and objects, and an absent field lists as `Undefined`. |
| Service.RetrieveAfterSync | backend/src/index.js:96-143 | Right after a valid static sync, strategy retrieval for that number returns 200. The payload is the strategy the sync produced and the strategy type the sync stored. |
| Service.RetrieveFailsIffUnknown | backend/src/index.js:136-146 | In a well-formed registry, retrieval answers 404 exactly for unknown account numbers. |
| Service.FalsyMetricRejected | backend/src/index.js:108-111 | Any one falsy metric, including a legitimate 0, makes the dynamic sync a 400 that changes nothing, whatever account it names. |
| Service.ZeroBalanceRejected | backend/src/index.js:108-111 | A body with balance 0 and every other metric non-zero is refused with 400. |
| Service.HandleTimely | backend/src/index.js:106-124 | If the clock does not go backwards, one request keeps every snapshot history in time order and no later than the clock. |
| Service.RunKeepsChronology | backend/src/index.js:106-124 | If the clock never goes backwards across a request sequence, every account's snapshot history stays in time order. |

## Left out

- Express setup, body parsing, route registration and `app.listen` on port 5000 (backend/src/index.js:1-6, 158-160). This is I/O plumbing. A body that fails to parse is refused by the body parser with the framework's own 400 error page before any route handler runs, on every route including the two GETs. The model does not represent that refusal. An absent body reads as a map without the fields read.
- Rendering times with `toISOString`. Times are milliseconds since the epoch, as natural numbers. `creationTimestamp` and `expiryDate` come from two separate clock reads (`new Date()` and `Date.now()`). The model takes one reading, `now`, for both.
- JSON serialisation. Responses are a `Response(status, payload)` datatype.
- JavaScript numbers are reals here. Double-precision rounding is not modelled. NaN is a separate falsy value. Arrays and objects keep their elements and members, so a stored profile field or metric is echoed by the account listing exactly as sent; object member order is not modelled (members form a map).
- JavaScript strings are sequences of UTF-16 code units, and a JSON body can carry an unpaired surrogate such as `"\ud800"` as `account_number` or `strategy_type`. Dafny's `string` is a sequence of Unicode characters and cannot hold such a string, so those requests are not represented. The handlers only test strings for equality and emptiness, so nothing else about them changes.
- Concurrency. The service runs on a single-threaded event loop, so each handler is one atomic transition.
- The randomised strategy generator (with the labels "reversal", "scalping", "breakout", "momentum" and "news", and a `/api/dataSync` route). That variant is not part of this model. backend/src/index.js implements only the deterministic catalog.
- Service.RunKeepsChronology: proves non-decreasing, not strictly increasing, snapshot times, and only under a clock that does not go backwards. Two requests in the same millisecond get equal times, and the source reads a wall clock that can be set back.
