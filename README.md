# Savings-goal status: a Dafny model

This project models the goal controller of a personal savings-goal tracker.
Users create savings goals with a target amount and an optional end date, and
they record contributions towards them. The server derives each goal's status
(`active`, `achieved` or `expired`) and writes it back to the goal table when the
stored status is stale.

The model follows `server/src/controllers/goalController.js`:

- `GoalStatus` holds the pure part. It has the status rule (`determineGoalStatus`),
  the normalisation of the two amount fields (`normalizeGoal`), and what a status
  synchronisation computes. The current time is the parameter `now`, an instant
  in milliseconds. An end date is an optional instant. Amounts are integers
  (cents). The record carries both the snake_case amount fields of the goal table
  and the camelCase fields of request bodies, because the status rule reads
  `target_amount ?? targetAmount ?? 0`.
- `GoalStore` stands in for the goal table (`goalModel.js` is not part of this
  model). It is a class over a `map<GoalId, Goal>` and a sequence of
  contributions. Each operation takes the arguments the controller passes it:
  reading one goal, updating, deleting and listing contributions are scoped by
  goal id and owner id; creating a goal and listing goals take only the owner;
  recording a contribution takes only the goal id, after the controller has
  checked ownership. Each mutating call is also appended to the `writes` log,
  so the model can state which writes the controller issues: none on a 404,
  exactly one status-only write when the status is stale.
- `GoalController` holds `syncGoalStatus` and the six handlers as methods over a
  `Store`. Each handler takes the authenticated user's id, the request fields,
  the validation outcome as `valid`, and `now`. It returns a `Response` (status
  code plus payload). `listGoals` runs synchronisation over the user's goals as a
  sequential loop (`SyncEach`). Three scenario methods replay typical request
  sequences, using only the handlers' contracts.

The store's behaviour is a modelling choice, stated in the `GoalStore` contracts:

- A new row has `saved_amount` 0 and status `active`.
- A partial update sets each field the update defines and leaves every
  undefined field unchanged (`ApplyUpdates`).
- A contribution is added to `saved_amount`.
- Deleting a goal deletes its contributions too.

The delete and list-contributions handlers never look at the validation result,
so `DeleteGoalHandler` and `ListContributions` take no `valid` argument.

Two consequences of the code are worth spelling out:

- The deadline test compares the parsed end date with the current instant
  using a strict `<` (goalController.js:23). So a goal is not expired at the exact instant of its end date, and it is
  expired one instant later (`DeadlineIsStrict`). A date-only end date parses to
  the start of that day, so in the code such a goal is expired for the rest of
  its last day.
- `normalizeGoal` coerces only the snake_case amounts (goalController.js:34-35).
  A goal that carries its amounts only in camelCase is
  returned with both amounts 0, even though its status was derived from the
  camelCase values (`NormalizeCanChangeStatus`). Rows from the goal table are
  snake_case (`Store.Valid`), so every goal a handler returns has a status that
  agrees with its own normalised amounts (`PresentedGoalIsConsistent`).

## Model

| member | source | states |
|---|---|---|
| `GoalStatus.DetermineGoalStatus` | server/src/controllers/goalController.js:12-28 | A null goal is active. Achieved only with a positive target. Expired only when the end date lies strictly before `now`. |
| `GoalStatus.StatusRule` | server/src/controllers/goalController.js:19-27 | Achieved iff the target is positive and the saved amount reaches it. Expired iff not achieved and the end date is before `now`. Active iff neither holds. |
| `GoalStatus.AchievedWhateverTheDeadline` | server/src/controllers/goalController.js:19-21 | A funded goal is achieved for every end date and every current time. |
| `GoalStatus.NonPositiveTargetNeverAchieved` | server/src/controllers/goalController.js:19 | A goal whose target is at most 0 is never achieved, whatever its saved amount. |
| `GoalStatus.NoDeadlineNeverExpired` | server/src/controllers/goalController.js:17-25 | A goal without an end date is never expired. |
| `GoalStatus.DeadlineIsStrict` | server/src/controllers/goalController.js:16-25 | An unfunded goal is active at the instant of its end date and expired one instant later. |
| `GoalStatus.ExpiryIsPermanent` | server/src/controllers/goalController.js:23-25 | An expired goal stays expired as time advances while its amounts do not change. |
| `GoalStatus.SnakeCaseTakesPrecedence` | server/src/controllers/goalController.js:14-15 | For each amount separately: when its snake_case value is present, its camelCase value has no effect on the status. |
| `GoalStatus.MissingAmountsCountAsZero` | server/src/controllers/goalController.js:14-15 | For each amount separately: when neither spelling is present, the status is that of the goal with that amount 0. With no target at all the goal is not achieved. |
| `GoalStatus.StatusIgnoresStoredStatus` | server/src/controllers/goalController.js:12-28 | The stored status plays no part in the derived status. |
| `GoalStatus.NormalizeAmounts` | server/src/controllers/goalController.js:32-36 | Only the two snake_case amounts change. Both become present. A present value is kept and a missing one becomes 0. |
| `GoalStatus.NormalizeGoal` | server/src/controllers/goalController.js:30-37 | A null goal passes through. Any other goal has its amounts normalised. |
| `GoalStatus.NormalizeIsIdempotent` | server/src/controllers/goalController.js:30-37 | Normalising twice gives the same result as normalising once. |
| `GoalStatus.NormalizeKeepsStatus` | server/src/controllers/goalController.js:30-37 | Normalisation keeps the derived status unless an amount appears only in camelCase. |
| `GoalStatus.NormalizeCanChangeStatus` | server/src/controllers/goalController.js:34-35 | A goal achieved by its camelCase amounts derives as active once normalised. |
| `GoalStatus.SyncedGoal` | server/src/controllers/goalController.js:40-45 | The synchronised goal's status equals its derived status. No other field differs from the input. |
| `GoalStatus.SyncIsIdempotent` | server/src/controllers/goalController.js:39-46 | A goal needs no write exactly when synchronisation returns it unchanged. A synchronised goal needs no further write. |
| `GoalStatus.PresentedGoalIsConsistent` | server/src/controllers/goalController.js:52 | For a snake_case row, the normalised synchronised goal carries the status derived from it. |
| `GoalStore.ApplyUpdates` | server/src/controllers/goalController.js:93-101 | A partial update keeps id, owner and saved amount. Name, target, description, end date and status each take the update's value when it defines one and keep the stored value otherwise. |
| `GoalStore.StatusUpdateTouchesOnlyStatus` | server/src/controllers/goalController.js:42 | The `{ status }` update changes the status field and nothing else. |
| `GoalStore.IdsOfSnoc` | server/src/controllers/goalController.js:50-52 | Appending a goal to a list adds its id to the list's ids. |
| `GoalStore.OwnedBelowLists` | server/src/controllers/goalController.js:50 | The listing holds exactly the user's stored goals, each as stored, with strictly increasing ids, so no goal appears twice. |
| `GoalStore.ContributionsOf` | server/src/controllers/goalController.js:156 | The listed contributions are exactly the stored contributions of that goal. |
| `GoalStore.ContributionsPartition` | server/src/controllers/goalController.js:116 | The contributions of one goal and those of all other goals together make up exactly the recorded contributions, counted with multiplicity. |
| `GoalStore.WithoutGoal` | server/src/controllers/goalController.js:116 | Deleting a goal's contributions keeps exactly the contributions of other goals. |
| `GoalStore.Store.GetGoalById` | server/src/controllers/goalController.js:88-91 | Returns the goal exactly when it exists and belongs to the user. |
| `GoalStore.Store.GetGoalsByUser` | server/src/controllers/goalController.js:50 | Returns the user's goals in id order. A loop is proved against the listing function. |
| `GoalStore.Store.CreateGoal` | server/src/controllers/goalController.js:67-73 | Inserts a fresh row under a new id and logs one insert. |
| `GoalStore.Store.UpdateGoal` | server/src/controllers/goalController.js:101 | Updates the row only if it belongs to the user. Logs the call either way. |
| `GoalStore.Store.DeleteGoal` | server/src/controllers/goalController.js:116 | Deletes the row and its contributions only if it belongs to the user. |
| `GoalStore.Store.AddGoalContribution` | server/src/controllers/goalController.js:135-139 | Appends the contribution and credits the goal's saved amount. |
| `GoalStore.Store.GetGoalContributions` | server/src/controllers/goalController.js:156 | Returns the goal's contributions only if it belongs to the user, otherwise nothing. |
| `GoalController.SyncWrites` | server/src/controllers/goalController.js:41-42 | At most one write, issued exactly when the stored status differs from the derived one. |
| `GoalController.SecondSyncWritesNothing` | server/src/controllers/goalController.js:39-46 | Synchronising an already synchronised goal issues no write. |
| `GoalController.SyncGoalStatus` | server/src/controllers/goalController.js:39-46 | Returns the synchronised goal. Writes only when stale, and then only the status of the entry keyed by the goal's id and owner. Contributions are untouched. |
| `GoalController.SyncStoredStep` | server/src/controllers/goalController.js:41-45 | Synchronising a goal exactly as stored leaves that entry synchronised, whether or not a write was needed. |
| `GoalController.Presented` | server/src/controllers/goalController.js:51-53 | Each listed goal is returned synchronised and then normalised, in the same order. |
| `GoalController.ListGoals` | server/src/controllers/goalController.js:48-58 | Returns the user's goals, synchronised and normalised, each with a consistent status. Afterwards every one of the user's goals carries its derived status, and other users' goals are untouched. |
| `GoalController.SyncEach` | server/src/controllers/goalController.js:51-53 | The sequential loop over the listed goals synchronises exactly their entries and issues their writes in order. |
| `GoalController.SyncNextIsStored` | server/src/controllers/goalController.js:51-53 | The next listed goal is still stored as listed and has not been synchronised yet. |
| `GoalController.SyncNextStep` | server/src/controllers/goalController.js:51-53 | Synchronising the next listed goal adds its id to the synchronised set. |
| `GoalController.PrefixStep` | server/src/controllers/goalController.js:51-53 | One more processed goal adds one presented goal, its writes, and its id. |
| `GoalController.SyncedAllOwned` | server/src/controllers/goalController.js:50-53 | Synchronising every listed goal synchronises exactly the user's goals. |
| `GoalController.CreateGoalHandler` | server/src/controllers/goalController.js:60-79 | Returns 422 and changes nothing when invalid. Otherwise inserts, synchronises once, and returns the normalised goal with 201 and a consistent status. |
| `GoalController.UpdateGoalHandler` | server/src/controllers/goalController.js:81-107 | Returns 422 or 404 and changes nothing. Otherwise applies the update and returns the derived status, even when the request supplied a different status. |
| `GoalController.DeleteGoalHandler` | server/src/controllers/goalController.js:109-121 | Returns 404 and changes nothing when the goal is absent or another user's. Otherwise deletes the goal and its contributions. |
| `GoalController.AddContributionHandler` | server/src/controllers/goalController.js:123-147 | Returns 422 or 404 and changes nothing. Otherwise appends the contribution, re-reads the goal, synchronises it, and returns it with 201. |
| `GoalController.ListContributions` | server/src/controllers/goalController.js:149-161 | Returns 404 when the goal is absent or another user's. Otherwise returns exactly that goal's contributions. Never writes. |
| `GoalController.ContributionReachesTarget` | server/src/controllers/goalController.js:123-143 | A goal of 100 without an end date is created active. A contribution of 100 makes it achieved. |
| `GoalController.PastDeadlineIsExpiredOnList` | server/src/controllers/goalController.js:48-54 | A goal whose end date has passed is listed as expired. |
| `GoalController.OtherUsersGoalIsNotFound` | server/src/controllers/goalController.js:88-91 | Update, delete and contribution on another user's goal all return 404. The returned goal table is exactly the one the owner's create left: the goal active with nothing saved. |

## Left out

- Express plumbing (`req`, `res`, `next`) and `express-validator`. Validation is the boolean `valid`, and its error list is the abstract payload `ValidationErrors`.
- Store failures. A failing store call goes to `next(error)` and becomes a server error. The in-memory store never fails, so this path is not modelled.
- The `TypeError` that synchronising a null goal would raise. It could only happen if a goal vanished between two store calls of one request, and the sequential model has no such interleaving.
- The concurrent `Promise.all` in `listGoals`. It is modelled as a sequential loop, with one reading of the clock per request.
- `Number()` coercion of strings and floating-point amounts. Amounts are integers.
- `Date` parsing of `end_date`, including invalid dates. An end date is an already-parsed instant, and a missing one is `None`.
- Status values other than the three statuses. A stored status is `None` or one of the three.
- The internals of `goalModel.js`: SQL, the `created_at`/`updated_at` timestamps, ordering contributions by date, and defaulting a missing contribution date. The store contracts above are the only assumptions about it.
- `server/src/routes/goalRoutes.js` (route wiring and authentication middleware) and `client/src/services/goals.js` (an HTTP wrapper). Neither holds logic of the core.
