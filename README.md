# Smart waste bin dashboard server — Dafny model

This project models the state-update layer of the dashboard server for
simulated smart waste bins (`Dashboard/server/index.js`). The server keeps
three tables (bins, waste events and cleanup tasks) and a set of connected
live-stream subscribers. It:

- records waste deposits: clamps the bin's fill to its capacity and raises
  the bin to `needs_cleaning` above 90%;
- runs a simulator tick that makes the same write with generated inputs;
- resets a bin when it is marked cleaned;
- creates tasks and updates their three-state status, with a completion
  timestamp tied to that status;
- answers three read-only queries: the bin list with fill percentages, the
  overview of totals per category, and the filtered, ordered task list;
- fans each change out to every connected subscriber.

Layout, one module per component:

- `values.dfy` (`Values`): optional fields, the JSON values whose JavaScript
  truthiness or `typeof` the handlers test, and timestamps.
- `bins.dfy` (`Bins`): the bin row and the pure deposit, threshold, cleaning,
  lookup and fill-percentage rules.
- `tasks.dfy` (`Tasks`): the task row, status parsing, creation defaults, the
  status/completion rule, and the task list (join, filter, ordering, insertion
  sort).
- `events.dfy` (`Events`): the waste-event row, the values a deposit stores,
  and the `getOverview` aggregation. That aggregation is a method with the
  source's two loops over a JavaScript object, modelled as an
  insertion-ordered association list of ordinary string keys.
- `store.dfy` (`Server`): the class `Store`. The handlers are methods that
  update its fields in place (`bins`, `events`, `tasks`, `clients`,
  `outbox`). Every method keeps the invariant `Valid()`:
  - every capacity is positive and every fill is at most its capacity;
  - node ids are unique;
  - every event points at an existing bin and stores contamination as 0 or 1;
  - every task has `completed_at` set exactly when its status is `completed`;
  - every subscriber has an outbox.

  Three client methods at the end show what callers can conclude from the
  contracts alone.

Modelling choices:

- A bin's or task's numeric id is its position in the table plus one. Rows
  are auto-incremented and never deleted.
- Kilograms are exact `real`s.
- Timestamps, random choices and the clock are parameters.
- An HTTP answer is an outcome datatype: `BadRequest`/`NotFound`/`Recorded`,
  `MissingFields`/`Created`, `InvalidStatus`/`Updated`.
- A server-sent event is a `Message(event, payload)` appended to each
  connected subscriber's outbox.

Notable behaviour of the code, which the model follows:

- The deposit handler checks only `typeof weightKg === "number"`
  (index.js:113). A negative weight is accepted and can drain a bin below
  zero (`Bins.NegativeWeightDrainsBelowZero`). So `0 <= fill` is kept only
  while weights are non-negative (`Bins.FillsInRange`). `fill <= capacity`
  always holds.
- A status update writes `completed_at = NULL` for every status other than
  `completed` (index.js:100-101). Leaving `completed` therefore clears the
  completion time; it is not kept.
- The simulator weight is `Number((r * 0.6 + 0.1).toFixed(2))` with `r < 1`.
  Rounding to two decimals can give exactly 0.70, so the modelled range is
  0.1 to 0.7 inclusive.

## Model

| member | source | states |
|---|---|---|
| Bins.NextFill | Dashboard/server/index.js:125 | the new fill is at most the capacity and at most fill + weight, and equals one of the two (it is their minimum) |
| Bins.OverThreshold | Dashboard/server/index.js:126-127 | `nextFill / capacity > 0.9` on exact reals, also used by the simulator at index.js:180; a capacity of zero follows IEEE division: a positive fill passes (+Infinity) and a zero or negative one does not (NaN, -Infinity) |
| Bins.OverThresholdByProduct | Dashboard/server/index.js:126-127 | for a positive capacity the test `nextFill / capacity > 0.9` holds exactly when the fill exceeds 90% of the capacity |
| Bins.NextStatus | Dashboard/server/index.js:126-127 | the status becomes `needs_cleaning` iff the threshold is passed or it already was; otherwise it is the previous status (never a downgrade) |
| Bins.Deposited | Dashboard/server/index.js:125-131 | the written-back row: clamped fill (never above capacity, non-negative for non-negative inputs), threshold status that never returns to `ok`, `updated_at` set; no other field changes |
| Bins.Cleaned | Dashboard/server/index.js:148-150 | a cleaned row is in range, below the threshold and keeps its identity and capacity |
| Bins.CleanedForgetsHistory | Dashboard/server/index.js:148-151 | cleaning is unconditional: the result (fill 0, status `ok`, both timestamps = the given time) does not depend on the prior fill, status or timestamps |
| Bins.DepositAfterCleaning | Dashboard/server/index.js:125-127 | a deposit into a freshly cleaned bin stores just the clamped weight |
| Bins.NegativeWeightDrainsBelowZero | Dashboard/server/index.js:113 | the weight check is only `typeof`, so a negative weight into an empty bin makes the fill negative |
| Bins.FindNode | Dashboard/server/index.js:116-117 | the lookup by node id returns a position holding that node id, or none exactly when no bin has it |
| Bins.FindNodeOfBin | Dashboard/server/index.js:116 | with unique node ids the lookup returns exactly the bin's own position |
| Bins.DepositKeepsBinsValid | Dashboard/server/index.js:125-131 | a deposit into one row keeps every capacity positive, every fill at most its capacity and the node ids unique, and keeps fills non-negative for a non-negative weight |
| Bins.CleaningKeepsBinsValid | Dashboard/server/index.js:148-151 | cleaning one row keeps the table valid and its fills in range |
| Bins.FillPercent | Dashboard/server/index.js:26 | the percentage is at most 100, non-negative for a non-negative fill, 100 for a full bin, and the nearest integer (halves up) to fill/capacity*100 when the bin is not overfull |
| Bins.BinViews | Dashboard/server/index.js:22-28 | one entry per bin in ascending id order, with the row unchanged and its fill percentage (at most 100) |
| Bins.SeedBins | Dashboard/server/db.js:88-95 | the five demonstration rows satisfy the table invariant and have fills in range |
| Bins.Bin004Example | Dashboard/server/index.js:125-127 | BIN-004 at 42/55 kg plus 5 kg gives 47 kg, below the threshold, still `needs_cleaning`; after cleaning, 10 kg gives 10 kg and `ok` |
| Tasks.ParseTaskStatus | Dashboard/server/index.js:97-99 | a status is accepted exactly when the text is `assigned`, `in_progress` or `completed`, and the parsed value names that text |
| Tasks.NewTask | Dashboard/server/index.js:80-88 | a created task has status `assigned`, assigner `admin`, no completion time, the request's bin, title and assignee, priority defaulting to `medium` and details defaulting to `""` |
| Tasks.WithStatus | Dashboard/server/index.js:100-105 | the new status is stored, and `completed_at` is set (to the given time) exactly when it is `completed`; nothing else changes |
| Tasks.AnyTransitionAllowed | Dashboard/server/index.js:95-105 | any status may follow `completed`, and leaving `completed` clears the completion time |
| Tasks.Joined | Dashboard/server/index.js:66-74 | the join keeps exactly the tasks whose bin exists and, with a truthy assignee, that are assigned to it, each with its bin's name and location, each task once and in id order |
| Tasks.TextLeTotal | Dashboard/server/index.js:75 | text ordering of `created_at` is total |
| Tasks.TextLeTransitive | Dashboard/server/index.js:75 | text ordering of `created_at` is transitive |
| Tasks.RowBeforeTotal | Dashboard/server/index.js:75 | the (status rank, newest first) order relates every two rows |
| Tasks.RowBeforeTransitive | Dashboard/server/index.js:75 | the (status rank, newest first) order is transitive |
| Tasks.InsertRow | Dashboard/server/index.js:75 | inserting a row adds exactly that row |
| Tasks.InsertRowSorted | Dashboard/server/index.js:75 | inserting into an ordered list keeps it ordered |
| Tasks.SortRows | Dashboard/server/index.js:75 | sorting gives an ordered permutation of its input |
| Tasks.PermutedJoin | Dashboard/server/index.js:63-76 | reordering the joined rows keeps exactly the same rows and lists every task id at most once |
| Tasks.StatusRank | Dashboard/server/index.js:75 | the rank is 0 exactly for `assigned`, 2 exactly for `completed` (and 1 for `in_progress`) |
| Tasks.TextLe | Dashboard/server/index.js:75 | SQLite's BINARY comparison of two texts: character by character, a proper prefix first |
| Tasks.RowBefore | Dashboard/server/index.js:75 | the sort key: a lower status rank first, and within one rank the later `created_at` first |
| Tasks.Listed | Dashboard/server/index.js:67-73 | a task is in the join when its `bin_id` names an existing bin, and with a truthy assignee only when `assigned_to` equals it |
| Tasks.JoinRow | Dashboard/server/index.js:67-69 | the joined row: the task with its id and its bin's `name` and `location` as `bin_name` and `bin_location` |
| Tasks.AcceptsTask | Dashboard/server/index.js:80-83 | a task request is accepted exactly when `binId`, `title` and `assignedTo` are all truthy |
| Tasks.ListTasks | Dashboard/server/index.js:63-77 | the task list is ordered by status rank then newest first, is a permutation of the joined and filtered rows, holds only tasks with an existing bin (and the requested assignee), holds every such task, and lists no task twice |
| Tasks.OpenTasksFirst | Dashboard/server/index.js:75 | in the list every assigned or in-progress task comes before every completed one |
| Values.Truthy | Dashboard/server/index.js:81 | JavaScript truthiness: `undefined`, `null`, `false`, `0` and `""` are falsy, everything else truthy (also used at index.js:113 and 123) |
| Values.Present | Dashboard/server/index.js:81 | truthiness of an optional string field: present and not empty (also at index.js:113) |
| Values.IsNumber | Dashboard/server/index.js:113 | `typeof weightKg === "number"` |
| Events.TotalWeight | Dashboard/server/index.js:36-38 | the grand total is 0 with no events and non-negative when no weight is negative |
| Events.CategoryTotal | Dashboard/server/index.js:31-35 | the sum of the weights of the events of one category |
| Events.CategoryTotalBounds | Dashboard/server/index.js:31-38 | with no negative weight a category's total lies between zero and the grand total |
| Events.StoredConfidence | Dashboard/server/index.js:123 | the stored confidence is the input when truthy and 0.75 otherwise |
| Events.ContaminationFlag | Dashboard/server/index.js:123 | the stored contamination is 0 or 1, and 1 exactly for a truthy input |
| Events.ContaminationCount | Dashboard/server/index.js:39-41 | the contamination count is at most the number of events and is zero exactly when no event has contamination 1 |
| Events.EventCategories | Dashboard/server/index.js:31-35 | the grouped categories are distinct and are exactly the categories that occur in the events |
| Events.AbsentCategoryIsZero | Dashboard/server/index.js:44 | a category no event carries totals zero |
| Events.CategoryRows | Dashboard/server/index.js:31-35 | one grouped row per occurring category, carrying that category's total |
| Events.Put | Dashboard/server/index.js:44-45 | assigning an object property keeps an existing key in place with the new value or appends a new key, and keeps keys distinct |
| Events.AddKeys | Dashboard/server/index.js:43-45 | writing a sequence of keys into an object keeps the existing keys first and in place, holds exactly the old and the written keys, and keeps keys distinct |
| Events.SumOverAppend | Dashboard/server/index.js:31-38 | one more event adds its weight to exactly the key it belongs to |
| Events.SumOverIsTotal | Dashboard/server/index.js:31-38 | over distinct keys covering every occurring category, the unrounded category totals sum to the unrounded grand total |
| Events.SumValuesIsSumOver | Dashboard/server/index.js:43-45 | an object whose values are its keys' category totals sums to the total over its keys |
| Events.CompletedObjectSums | Dashboard/server/index.js:43-50 | once the grouped sums are copied in, every value is its key's category total and the values sum to the unrounded `total_waste_kg` |
| Events.ZeroFilledObject | Dashboard/server/index.js:43-44 | with no events the object is exactly the five categories at zero |
| Events.CategoriesDistinct | Dashboard/server/index.js:10 | the five category names are distinct |
| Events.ZeroFilled | Dashboard/server/index.js:43-44 | the first loop yields the five categories in order, all at zero |
| Events.CopyRows | Dashboard/server/index.js:45 | the second loop writes the grouped rows into the object one after the other, in row order |
| Events.PutAll | Dashboard/server/index.js:45 | the object after `byCategory[k] = v` for each grouped row `(k, v)` in turn |
| Events.CopyGroupStep | Dashboard/server/index.js:45 | writing one more group's total keeps the keys in arrival order and every value at its category's total if written, zero otherwise |
| Events.PutAllGroups | Dashboard/server/index.js:43-45 | writing all grouped rows into the zero-filled object leaves every written category at its total and the rest at zero, with keys in arrival order |
| Events.OverviewFacts | Dashboard/server/index.js:43-50 | the finished object has distinct keys, the five categories first, exactly the fixed and occurring categories, each at its total, summing to the (unrounded) grand total, and is the five zeros when there are no events |
| Events.GetOverview | Dashboard/server/index.js:30-52 | the overview has the grand total and the contamination count; its keys are the five categories first and then exactly the other occurring categories, without repeats, in the order their groups arrive; each value is that category's total; the values sum to the grand total (both unrounded); with no events the total, the count and all five entries are zero |
| Server.AcceptsDeposit | Dashboard/server/index.js:112-115 | a deposit is accepted exactly when `nodeId` and `category` are truthy and `weightKg` is a number |
| Server.Delivered | Dashboard/server/index.js:17-19 | a published message is appended to the outbox of every connected subscriber and to no other outbox |
| Server.DeliveredToConnectedOnly | Dashboard/server/index.js:17-19 | a connected subscriber keeps what it had and gets the message last; a disconnected one gets nothing |
| Server.Store.constructor | Dashboard/server/db.js:84-97 | the store starts with the seed bins, no events, no tasks and no subscribers, and satisfies its invariant |
| Server.Store.Broadcast | Dashboard/server/index.js:17-19 | the loop over `clients` delivers the message to every connected subscriber and changes nothing else |
| Server.Store.Connect | Dashboard/server/index.js:157-168 | a new subscriber gets the `connected` acknowledgement as its only message and joins the set |
| Server.Store.Disconnect | Dashboard/server/index.js:166-168 | a closed subscriber leaves the set; nothing else changes |
| Server.Store.Record | Dashboard/server/index.js:120-131 | one event for the bin is appended and only that bin's row is rewritten by the deposit rule |
| Server.Store.Deposit | Dashboard/server/index.js:111-143 | a missing node id or category or a non-number weight is rejected, an unknown node id is not found, and neither writes or broadcasts; a success appends exactly one event (confidence defaulted, contamination as 0/1), rewrites only that bin's row, broadcasts and returns the submitted node id, category, weight and contamination; fills stay in range for a non-negative weight |
| Server.Store.SimulatorTick | Dashboard/server/index.js:172-192 | with no bins nothing happens; otherwise one event with the generated values is appended for the chosen bin, that bin alone is rewritten by the deposit rule, `sim_tick` is broadcast, and fills stay in range |
| Server.Store.MarkCleaned | Dashboard/server/index.js:145-155 | an existing bin gets fill 0, status `ok` and both timestamps set to the given time, whatever its prior state, and no other bin changes; an unknown id changes nothing; `bin_cleaned` is broadcast in both cases |
| Server.Store.CreateTask | Dashboard/server/index.js:79-93 | a request lacking a truthy bin id, title or assignee is rejected with no row and no broadcast; otherwise exactly one task with the next id is appended and broadcast |
| Server.Store.UpdateTaskStatus | Dashboard/server/index.js:95-109 | an unknown status is rejected with no change and no broadcast; otherwise the task with that id (if any) takes the status, with `completed_at` set exactly for `completed`, and `task_updated` is broadcast |

## Left out

- Express routing, HTTP status codes and JSON responses, CORS and `listen` (index.js:1-8, 194-197): framework I/O. The outcomes are datatypes.
- `db.js`: sqlite3 promise wrappers and table creation are library glue. Only its seed rows are used, as `Bins.SeedBins`.
- `distribution.py`: TensorFlow inference, a camera loop and threads; foreign calls and concurrency.
- The `async` interleaving between reading a bin and writing it back, and the lost update it allows: concurrency. A deposit is modelled as one step.
- A crash between the event insert and the bin update is not modelled. `Server.Store.Record` makes both writes together.
- Database errors, such as a broken NOT NULL constraint, and the unhandled rejections they cause are not modelled.
- Floating point: no NaN or Infinity and no binary rounding. `Math.round` is exact `floor(x + 0.5)`. Decimal rounding to two places is left out too: `ROUND(..., 2)` in the overview queries (index.js:32, 37) and `toFixed(2)` in the simulator. These round on exact arithmetic as well, so they are not a binary floating-point artefact.
- Non-string values of `nodeId`, `category`, `title`, `details`, `priority`, `assignedTo`, `status` (index.js:96) and the `assignee` query parameter (index.js:64), and a non-integer `binId`: the request types carry only strings (or an integer bin id).
- A `null` priority is not represented, since the database would refuse it. An absent priority is `None`.
- Column affinity and parameter binding: the model stores any truthy `confidence` unchanged (`StoredConfidence`). In the source, SQLite's REAL affinity turns a numeric string such as `"0.9"` into 0.9, and the driver binds `true` as 1; neither conversion is modelled.
- Route ids are integers. A text id that names no row is any integer outside the table.
- Simulator randomness and the `setInterval` timer: the chosen bin, category, weight, confidence and contamination are parameters in the generator's ranges.
- Server-sent event wire framing and `JSON.stringify`: a message is a value in each subscriber's outbox. Writes to a response that has closed are not modelled.
- `nowIso` and the wall clock: the time is a parameter.
- Tasks.ListTasks: SQL leaves open the order of rows that tie on both status rank and `created_at`. The model fixes one order (by id), so the contract states only "ordered and a permutation".
- Events.GetOverview: SQL does not specify the order of the `GROUP BY` rows. The model fixes the order in which categories first occur. The choice only affects where extra category keys sit after the five fixed ones.
- Events.Put: models a property assignment on an ordinary string key, which appends the key or overwrites it in place. Two kinds of key behave differently in JavaScript, and `category` can be either, since it is only checked for truthiness (index.js:113). Assigning to `"__proto__"` runs the prototype setter: a number is ignored and no key is added. An array-index key such as `"7"` is listed before all other keys, in ascending numeric order. The model does neither.
- Events.GetOverview: for the same reason, the contract describes the answer only when no event has category `"__proto__"` or an array-index string. For `"__proto__"` the source's `by_category_kg` leaves that category out, so, before rounding, its values add up to `total_waste_kg` minus the total weight of the `"__proto__"` events. Any array-index category comes before the five fixed keys.
- Events.GetOverview: the sum clause (`SumValues(o.byCategoryKg) == o.totalWasteKg`) is proved for the unrounded totals. The source rounds each `GROUP BY` total (index.js:32) and the grand total (index.js:37) to 0.01 separately, so each category value can be off by up to 0.005 kg and their sum need not equal `total_waste_kg`. For example, three deposits of 0.333 kg in `plastic`, `paper` and `metal` give 0.33 three times (0.99) against a total of 1.0.
- Category values are not checked against the five fixed names, exactly as in the source. An unknown ordinary category becomes its own overview entry, after the five fixed ones (but see the two `Events.Put` / `Events.GetOverview` lines above).
