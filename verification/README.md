# Sum to n, and the items CRUD service, in Dafny

This project models two parts of a TypeScript code-challenge repository:

- **Sum to n** (`src/problem-4/src/sum.ts`). There are three public functions that add up 1 + 2 + … + n and return 0 when n ≤ 0:
  - an iterative loop (`sum_to_n_a`);
  - a recursion (`sum_to_n_b` / `_sum_recursive`);
  - Gauss's closed form (`sum_to_n_c`).

  Each first checks its input with `validateInput`, which throws for NaN, the infinities and non-integers.
- **The items service** (`src/problem-5`). This is an Express REST API over a SQLite `items` table. It has four layers:
  - The repository gives create, list with filters, get, update and delete over the table. Create inserts and then reads the new row back; update reads the row, writes the merged row and reads it back.
  - The service turns "no such row" into a `NotFoundError`.
  - The router validates requests and picks HTTP statuses.
  - An `AppError` hierarchy and a central `errorHandler` turn thrown errors into responses.

Files:

| file | module | what it holds |
|---|---|---|
| `wrappers.dfy` | `Wrappers` | `Option` (undefined, and the `??` operator) and `Result` (a value or the thrown error) |
| `sum_to_n.dfy` | `SumToN` | the three sums, the input validation and the agreement proofs |
| `text.dfy` | `Text` | JavaScript's `trim`, and SQLite's case-insensitive `LIKE '%p%'` |
| `item_types.dfy` | `ItemTypes` | `Item`, the DTOs, the list filter |
| `app_errors.dfy` | `AppErrors` | `AppError`, `NotFoundError`, `ValidationError` |
| `error_handling.dfy` | `ErrorHandling` | responses and `errorHandler` |
| `item_repository.dfy` | `ItemRepository` | the table, each statement's meaning, and the `ItemStore` class that changes it in place |
| `item_service.dfy` | `ItemService` | the service layer |
| `item_router.dfy` | `ItemRouter` | the five routes, as a decision followed by a service call |

How the items service is modelled:

- **The table.** The `items` table is a `Table`: a map from id to row, plus the AUTOINCREMENT counter.
  - The class `ItemStore` holds the table in two fields, `rows` and `nextId`, and its methods change them in place.
  - Each method is proved to leave the table equal to a function of the old table (`Inserted`, `Updated`, `Deleted`).
  - The lemmas are proved about those functions.
- **The router.** Each route handler is split in two.
  - First, a pure *decision* (`DecideCreate`, `DecideList`, …) either rejects the raw request with a `ValidationError` or names the one service call to make and the status for success.
  - Then a handler method makes that call on the store.
  - `Serve` composes the decision, the effect on the table and the error handler into the response a client receives.
- **Numbers.** JavaScript numbers are finite `real`s; ±Infinity is not represented (see "## Left out"). `Number(text)` is a parameter of type `string -> Option<real>`, where `None` stands for NaN. The current time is a parameter `now`.

## Model

| member | source | states |
|---|---|---|
| SumToN.SumIterative | src/problem-4/src/sum.ts:15-26 | the loop's result equals the closed form n(n+1)/2 for every integer n, and 0 for n ≤ 0 |
| SumToN.SumRecursive | src/problem-4/src/sum.ts:40-44 | the recursion's result is never negative, and is at least n when n > 0 |
| SumToN.SumFormula | src/problem-4/src/sum.ts:53-59 | the closed form is a non-negative integer r with 2r = n(n+1) for n > 0, so the division by 2 is exact |
| SumToN.RecursionMatchesFormula | src/problem-4/src/sum.ts:40-44 | the recursion and the closed form agree on every integer |
| SumToN.NonPositiveSumsToZero | src/problem-4/src/sum.ts:1-8 | every implementation returns 0 when n ≤ 0 |
| SumToN.KnownValues | src/problem-4/src/sum.test.ts:8-24 | 1, 5, 10 and 100 sum to 1, 15, 55 and 5050, by recursion and by the formula |
| SumToN.FormulaIsMonotonic | src/problem-4/src/sum.ts:53-59 | the sum never decreases as n grows |
| SumToN.SafeRange | src/problem-4/src/sum.ts:1-8 | the result is at most Number.MAX_SAFE_INTEGER exactly when n ≤ 134217727, so within that range the integer model matches double arithmetic |
| SumToN.ValidateInput | src/problem-4/src/sum.ts:61-73 | accepts exactly the finite integral numbers and returns them unchanged; refuses a non-finite number as not finite before anything else, and a finite non-integer as not an integer |
| SumToN.SumToNA | src/problem-4/src/sum.ts:15-26 | `sum_to_n_a` throws validateInput's error for invalid input, and otherwise returns the closed form |
| SumToN.SumToNB | src/problem-4/src/sum.ts:35-38 | `sum_to_n_b`: validate, then recurse; its meaning (equal to `sum_to_n_c` on every input, failing exactly on invalid input) is stated by EntryPointsAgree |
| SumToN.SumToNC | src/problem-4/src/sum.ts:53-59 | `sum_to_n_c`: validate, then apply the closed form; EntryPointsAgree states that it fails exactly on non-finite or non-integral input and is otherwise non-negative |
| SumToN.EntryPointsAgree | src/problem-4/src/sum.ts:35-59 | `sum_to_n_b` and `sum_to_n_c` give the same result on every input, errors included; they fail exactly on non-finite or non-integral input; a result is never negative |
| SumToN.ValidationExamples | src/problem-4/src/sum.test.ts:54-84 | NaN and ±Infinity are refused as not finite, and 1.5 and -0.1 as not integers |
| Text.Trim | src/problem-5/src/items/item.router.ts:11 | JavaScript's `trim()`; TrimMeaning states its meaning |
| Text.TrimStartMeaning | src/problem-5/src/items/item.router.ts:11 | stripping the start removes exactly a blank prefix, and what remains is empty or starts with a non-whitespace character |
| Text.TrimEndMeaning | src/problem-5/src/items/item.router.ts:11 | stripping the end removes exactly a blank suffix, and what remains is empty or ends with a non-whitespace character |
| Text.TrimMeaning | src/problem-5/src/items/item.router.ts:11 | `trim()` cuts a blank prefix and a blank suffix off the string and keeps the run between them, which neither starts nor ends with whitespace; the result is empty exactly when the string is blank |
| Text.TrimLeavesTrimmedAlone | src/problem-5/src/items/item.router.ts:18 | a non-empty string with non-whitespace ends is its own trim |
| Text.TrimIsIdempotent | src/problem-5/src/items/item.router.ts:18 | trimming twice equals trimming once |
| Text.StartsWithMeaning | src/problem-5/src/items/item.repository.ts:21-24 | the recursive prefix test holds exactly when the string's first \|p\| characters equal p, ignoring ASCII case |
| Text.ContainsMeaning | src/problem-5/src/items/item.repository.ts:21-24 | `name LIKE '%p%'` holds exactly when some window of the name equals p, ignoring ASCII case |
| ItemRepository.KeyOf | src/problem-5/src/items/item.repository.ts:38-40 | a JavaScript number names an INTEGER key exactly when it is integral, and then the key equals it |
| ItemRepository.GetItemById | src/problem-5/src/items/item.repository.ts:38-40 | finds a row exactly when some stored id equals the number, and returns that row |
| ItemRepository.Scan | src/problem-5/src/items/item.repository.ts:17-36 | from the keys in a range, returns exactly the stored rows that match the filter, with ids strictly ascending |
| ItemRepository.ListItems | src/problem-5/src/items/item.repository.ts:17-36 | returns only stored rows that meet every supplied condition (name LIKE, price ≥ min, price ≤ max), returns every such row, and orders them by strictly ascending id |
| ItemRepository.EmptyFilterListsEveryRow | src/problem-5/src/items/item.repository.ts:17-36 | with no filter, the listing contains every row and has as many elements as the table |
| ItemRepository.DistinctIdsCount | src/problem-5/src/items/item.repository.ts:35 | a listing with strictly ascending ids has no duplicate rows |
| ItemRepository.NameFilterExample | src/problem-5/src/items/item.repository.ts:21-24 | the name filter "apple" matches "Apple" and "Pineapple" but not "Banana" |
| ItemRepository.Inserted | src/problem-5/src/items/item.repository.ts:4-15 | the table after the insert; CreateThenGet states its meaning |
| ItemRepository.Merge | src/problem-5/src/items/item.repository.ts:46-50 | the merged row an update writes; UpdateMergesTargetOnly states its meaning |
| ItemRepository.Updated | src/problem-5/src/items/item.repository.ts:42-59 | the table after an update; UpdateMissingIsNoOp and UpdateMergesTargetOnly state its meaning |
| ItemRepository.Deleted | src/problem-5/src/items/item.repository.ts:61-63 | the table after a delete; DeleteRemovesTargetOnly states its meaning |
| ItemRepository.CreateThenGet | src/problem-5/src/items/item.repository.ts:4-15 | an insert stores the new row under a fresh id, with description "" and price 0 when undefined and both timestamps now; `getItemById` then returns that row, and every other row is unchanged |
| ItemRepository.UpdateMissingIsNoOp | src/problem-5/src/items/item.repository.ts:42-44 | updating an absent id writes nothing |
| ItemRepository.UpdateMergesTargetOnly | src/problem-5/src/items/item.repository.ts:42-59 | an update changes only the target row. Each supplied field replaces the old value, even "" or 0, and each undefined field keeps it. id and createdAt stay the same and updatedAt becomes now. The set of ids, the counter and all other rows are unchanged. |
| ItemRepository.DeleteRemovesTargetOnly | src/problem-5/src/items/item.repository.ts:61-63 | a delete removes only the row with that id. Afterwards the id is absent, a second delete changes nothing, and the counter is unchanged. |
| ItemRepository.IdsAreNeverReused | src/problem-5/src/config/db.ts:15 | over any sequence of creates, updates and deletes, each issued id is above every id issued before, and the issued ids strictly increase |
| ItemRepository.StampsStayOrdered | src/problem-5/src/items/item.repository.ts:52-56 | while the clock does not go backwards, every row keeps createdAt ≤ updatedAt ≤ now |
| ItemRepository.ItemStore.constructor | src/problem-5/src/config/db.ts:13-22 | a new database holds an empty, well-formed table whose counter starts at 1 |
| ItemRepository.ItemStore.CreateItem | src/problem-5/src/items/item.repository.ts:4-15 | the stored table becomes the old one with the new row inserted; the row returned has a fresh id above every existing id, and is the row read back under it |
| ItemRepository.ItemStore.UpdateItem | src/problem-5/src/items/item.repository.ts:42-59 | the stored table becomes the merged update of the old one; the method returns undefined exactly when the id was absent, and otherwise the merged row |
| ItemRepository.ItemStore.DeleteItem | src/problem-5/src/items/item.repository.ts:61-63 | the stored table loses the row with that id; the method reports true exactly when such a row existed |
| ItemService.NotFoundFor | src/problem-5/src/items/item.service.ts:15 | the service's missing-id error has status 404, and its message names the id |
| ItemService.CreateItem | src/problem-5/src/items/item.service.ts:5-7 | performs the repository's insert and returns its row |
| ItemService.ListItems | src/problem-5/src/items/item.service.ts:9-11 | the listing a caller gets: every element is a stored row meeting the filter, every such row is present, and ids strictly ascend |
| ItemService.GetItemById | src/problem-5/src/items/item.service.ts:13-17 | succeeds exactly when the row exists, and returns it; otherwise fails with NotFound naming the id |
| ItemService.UpdateItem | src/problem-5/src/items/item.service.ts:19-23 | performs the repository's update; returns the merged row, or NotFound when the id is absent |
| ItemService.DeleteItem | src/problem-5/src/items/item.service.ts:25-28 | performs the repository's delete; fails with NotFound exactly when no row was removed |
| ItemService.CreateThenGetYieldsItem | src/problem-5/src/items/item.service.ts:5-17 | getting the id a create just issued returns the created item |
| ItemService.UpdateFailsExactlyWhenAbsent | src/problem-5/src/items/item.service.ts:19-23 | an update fails with NotFound exactly when a get would, and then the table is unchanged; after a successful update, a get returns the updated row |
| ItemService.DeleteThenGetOrDeleteIsNotFound | src/problem-5/src/items/item.service.ts:25-28 | a delete fails exactly when a get would; after a delete, both a get and a second delete of the id fail with NotFound |
| AppErrors.NewAppError | src/problem-5/src/common/errors/AppError.ts:1-10 | an AppError keeps the status and message it was built with, and is named "AppError" |
| AppErrors.NewNotFoundError | src/problem-5/src/common/errors/AppError.ts:12-16 | a NotFoundError has status 404 and the given message, or "Not found" when none is given |
| AppErrors.NewValidationError | src/problem-5/src/common/errors/AppError.ts:18-22 | a ValidationError has status 400 and the given message |
| ErrorHandling.ErrorHandler | src/problem-5/src/common/middleware/errorHandler.ts:4-12 | an AppError is answered with its own status and a JSON error holding its message; any other error with 500 "Internal server error" |
| ErrorHandling.UnexpectedErrorsLeakNothing | src/problem-5/src/common/middleware/errorHandler.ts:10-11 | two unexpected errors get identical responses, so their messages never reach the client |
| ErrorHandling.StatusFollowsKind | src/problem-5/src/common/middleware/errorHandler.ts:4-12 | a NotFoundError is answered 404 (with "Not found" by default), a ValidationError 400, an AppError its own code, and any other error 500 |
| ItemRouter.CreateNameCheckMeaning | src/problem-5/src/items/item.router.ts:11-13 | POST rejects a name exactly when it is not a string with something other than whitespace in it |
| ItemRouter.UpdateNameCheckMeaning | src/problem-5/src/items/item.router.ts:67-69 | PUT rejects a name exactly when it is present (null included) and is not such a string |
| ItemRouter.TrimmedNameIsClean | src/problem-5/src/items/item.router.ts:18 | trimming a non-blank string gives a non-blank string that is its own trim |
| ItemRouter.DecideCreate | src/problem-5/src/items/item.router.ts:11-19 | the POST checks and the create they lead to; CreateValidation states its meaning |
| ItemRouter.CreateValidation | src/problem-5/src/items/item.router.ts:7-23 | POST goes ahead exactly when the name is a non-blank string and the price is absent or a number. The name is checked before the price, and each failure has its own 400 message. A valid request creates {trimmed name, description, price} and answers 201, and the stored name is clean. |
| ItemRouter.DecideList | src/problem-5/src/items/item.router.ts:25-49 | GET /items is rejected exactly when minPrice or maxPrice is NaN, minPrice first. Otherwise it lists with the parsed bounds and with the name only when the name is a single string, and answers 200. |
| ItemRouter.ParseId | src/problem-5/src/items/item.router.ts:53-54 | the id parameter is rejected with "Invalid id" exactly when it converts to NaN, and is otherwise the converted number |
| ItemRouter.DecideGet | src/problem-5/src/items/item.router.ts:51-60 | GET /items/:id rejects a NaN id with "Invalid id", and otherwise gets that id and answers 200 |
| ItemRouter.DecideUpdate | src/problem-5/src/items/item.router.ts:64-78 | the PUT checks and the update they lead to; UpdateValidation states its meaning |
| ItemRouter.UpdateValidation | src/problem-5/src/items/item.router.ts:62-82 | PUT checks the id, then the name, then the price, each with its own 400 message. It goes ahead exactly when the id is a number, the name is absent or non-blank, and the price is absent or a number. It then updates with the trimmed name, description and price as given, answers 200, and any name it writes is clean. |
| ItemRouter.DecideDelete | src/problem-5/src/items/item.router.ts:84-94 | DELETE rejects a NaN id with "Invalid id", and otherwise deletes that id and answers 204 |
| ItemRouter.HandleCreate | src/problem-5/src/items/item.router.ts:7-23 | the POST handler changes the store and answers or forwards exactly as the route's decision, carried out on the old table, says |
| ItemRouter.HandleList | src/problem-5/src/items/item.router.ts:25-49 | the GET /items handler answers or forwards exactly as its decision says, and leaves the store unchanged |
| ItemRouter.HandleGet | src/problem-5/src/items/item.router.ts:51-60 | the GET /items/:id handler answers or forwards exactly as its decision says, and leaves the store unchanged |
| ItemRouter.HandleUpdate | src/problem-5/src/items/item.router.ts:62-82 | the PUT handler changes the store and answers or forwards exactly as its decision, carried out on the old table, says |
| ItemRouter.HandleDelete | src/problem-5/src/items/item.router.ts:84-94 | the DELETE handler changes the store and answers or forwards exactly as its decision, carried out on the old table, says |
| ItemRouter.Serve | src/problem-5/src/items/item.router.ts:7-94 | serving any request leaves the table well formed: each row sits under its own id, below the counter |
| ItemRouter.EffectKeepsWellformed | src/problem-5/src/items/item.router.ts:7-94 | carrying out any decision keeps the table well formed |
| ItemRouter.MessagesNameTheirField | src/problem-5/src/items/item.router.ts:11-36 | every validation message mentions the field it is about |
| ItemRouter.InvalidIdIsRejectedFirst | src/problem-5/src/items/item.router.ts:51-94 | GET, PUT and DELETE with a NaN id all answer 400 "Invalid id" whatever the body, and leave the table unchanged |
| ItemRouter.MissingIdIsNotFound | src/problem-5/src/items/item.service.ts:13-28 | GET, a valid PUT and DELETE of a numeric id with no row all answer 404, naming the id, and leave the table unchanged |
| ItemRouter.InvalidUpdateBodyIsRejected | src/problem-5/src/items/item.router.ts:62-72 | a PUT with an invalid name or price answers 400 and writes nothing, even for an absent id |
| ItemRouter.DeleteAnswersNoContent | src/problem-5/src/items/item.router.ts:84-94 | deleting a present id answers 204 with no body, and the row is gone |
| ItemRouter.ErrorsAreForwarded | src/problem-5/src/items/item.router.ts:7-94 | handlers themselves answer only 200, 201 or 204. Every failure is an AppError passed to the error handler, which answers 400 or 404 on these routes. |
| ItemRouter.RoutesKeepNamesClean | src/problem-5/src/items/item.router.ts:7-82 | no request can store a blank or untrimmed name: if every stored name is clean before a request, every stored name is clean after it |
| ItemRouter.InsertKeepsNamesClean | src/problem-5/src/items/item.router.ts:18 | inserting a clean name keeps every stored name clean |
| ItemRouter.UpdateKeepsNamesClean | src/problem-5/src/items/item.router.ts:74-78 | an update whose name, if any, is clean keeps every stored name clean |
| ItemRouter.CleanPostIsAccepted | src/problem-5/src/items/item.router.ts:11-18 | a POST with a clean name and a numeric price is accepted with exactly that name and price |
| ItemRouter.CleanPostCreates | src/problem-5/src/items/item.router.ts:7-23 | such a POST inserts the row and answers 201 with the item under the next id, with description "" |
| ItemRouter.PricePutUpdates | src/problem-5/src/items/item.router.ts:62-82 | a PUT of a price alone at a present id changes only that row's price and updatedAt, and answers 200 with the row |
| ItemRouter.DeleteOfPresentRemoves | src/problem-5/src/items/item.router.ts:84-94 | a DELETE at a present id removes that row and answers 204 |
| ItemRouter.GetOfAbsentIsNotFound | src/problem-5/src/items/item.router.ts:51-60 | a GET at a numeric id with no row answers 404, naming the id |
| ItemRouter.LifecycleTables | src/problem-5/src/items/item.repository.ts:4-63 | on a fresh database, a create, an update and a delete of id 1 leave the expected row, then the updated row, then nothing |
| ItemRouter.ItemLifecycle | src/problem-5/src/items/__tests__/items.test.ts:38-248 | on a fresh database, for any clean name: POST answers 201 with id 1 and description "", stamped with the POST's time; PUT /items/1 with a new price answers 200 with the name and createdAt kept, the new price, and updatedAt set to the PUT's time; DELETE /items/1 answers 204; GET /items/1 then answers 404 naming id 1 |
| ItemRouter.WidgetIsCleanName | src/problem-5/src/items/item.router.ts:11 | "Widget" is a valid, already-trimmed name |
| ItemRouter.WidgetLifecycle | src/problem-5/src/items/__tests__/items.test.ts:38-248 | the widget walk-through: POST {name: "Widget", price: 4.99} answers 201 as item 1; PUT {price: 9.99} answers 200 with the name kept; DELETE answers 204; GET then answers 404 |
| ItemRouter.ClockOnlyAffectsWrites | src/problem-5/src/items/item.repository.ts:4-63 | only creates and updates stamp rows: for a list, get or delete, the time makes no difference to the table or to the response |

## Left out

- SumToN.SumIterative, SumToN.SumRecursive and SumToN.SumFormula: these work on unbounded integers. Above 134217727 the JavaScript doubles may lose precision, and any such loss is not modelled. `SafeRange` marks the boundary, which the source assumes is never crossed.
- SumToN.SumRecursive: the call-stack overflow that large n causes in JavaScript is not modelled.
- `Number()` conversion and JavaScript's number-to-string formatting:
  - The router takes `Number` as a parameter rather than restating its grammar.
  - An `ItemNotFound(id)` message stands for the text "Item with id {id} not found", without formatting the number.
- A JSON body's `description` is modelled only as a string or absent. The source passes a non-string description straight to SQLite, and that is not modelled.
- Only the fields a handler reads are modelled.
- ±Infinity is not modelled, wherever it comes from. `JSON.parse` turns a body price such as `1e400` into Infinity, which passes the number check and is stored. `Number()` turns an id or a price bound such as `"Infinity"` into Infinity: GET /items/Infinity answers 404, and `?minPrice=Infinity` lists only rows whose price is Infinity. `JNumber(x: real)` and `NumberParser` carry finite numbers only. (-0 needs nothing: it compares and prints as 0.)
- `%` and `_` inside a name filter: these are LIKE wildcards, but the model treats the filter as a literal substring. LIKE's case folding is modelled for ASCII only, which is what SQLite does by default.
- The SQL text, prepared statements, SQLite storage faults and the WAL pragma are not modelled. A failing statement would throw and be answered 500 by the error handler; the model's statements never fail.
- The AUTOINCREMENT counter's 64-bit limit is not modelled.
- Timestamps: `datetime('now')` becomes the parameter `now`. The text format of timestamps is not modelled. Nothing forces `now` to move forward; `StampsStayOrdered` states what holds when it does.
- The logging call in `errorHandler` is not modelled.
- The Express application wiring, JSON body parsing, the `/health` route and server start-up (`app.ts`, `server.ts`) are not part of this model.

Three behaviours of the code worth stating plainly:

- An update with `description: ""` overwrites the stored description: `??` falls back only on undefined or null (`UpdateMergesTargetOnly`).
- The name filter ignores ASCII case: SQLite's `LIKE` finds "Apple" for "apple" (`NameFilterExample`).
- `datetime('now')` has one-second resolution, so two updates within one second share a stamp; the model sets `updatedAt` to the `now` it is given.
