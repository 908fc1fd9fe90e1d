# Flash promo reservation engine, in Dafny

This project models the core of a Django service that runs time-boxed
discounts ("flash promos"). Each promo sits on one product at one store
and has a finite stock. The model covers:

- the **reservation engine**: hold, confirm, and cancel-or-expire. It works
  on a stock ledger and proves that per StoreProduct
  `stock + #HOLD + #CONFIRMED` never changes.
- the **promo lifecycle tick**, which activates and then finishes promos by
  their time window.
- the **notification fan-out**: the audience query, the 1000-user batches,
  and the anti-spam log insert.
- the **eligibility queries**: the behaviour flag, plus a distance test
  that is a parameter of the model.
- the **admin actions**.
- the **serializer checks** for promo, StoreProduct and store writes.
- the **outcome mapping** of the reserve, checkout and cancel endpoints.
- the **`IsAdminOrReadOnly` permission**.

Module layout:

| file | what it holds |
|---|---|
| `wrappers.dfy` | `Option` and `Result` |
| `constants.dfy` | the two status enums and `MINIMUM_DISTANCE` |
| `models.dfy` | the records; the `Database` class holding every table; the `Ledger` value; the catalog constraints; the unit-conservation predicates; the shared "active now" filter and the bulk status overwrite |
| `admin.dfy`, `queries.dfy`, `services.dfy`, `tasks.dfy`, `serializers.dfy`, `views.dfy`, `permissions.dfy` | one module per source file of the same name |

How the model is written:

- **Service functions.** Each atomic service function is a method on the
  `Database`, with `modifies` frames. Its contract ties its result and the
  new ledger to a step function (`HoldStep`, `ConfirmStep`, `ReleaseStep`).
  The lemmas about the step functions carry the engine's properties.
- **Loops.** The loops of `expire_reservations`, `activate_and_notify_promos`,
  `notify_promo` and `notify_active_promos` are `while` loops with
  invariants, each proved against a function of the old state.
- **Views, queries and permissions.** These are functions. The reservation
  views compose the step functions, so their answers and the ledger they
  leave can be related to the engine.

Representation choices:

- Time is integer seconds, dates are integer days, and prices are integer
  cents.
- The reservation token is drawn from a counter, `nextToken`, which stands
  for `uuid.uuid4().hex`. Reservations form a map keyed by token, so the `unique=True` token
  column holds by construction. `LedgerValid` keeps every token below the
  counter, so `HoldSpec` can show that a new token is unused.
- "Within r metres" is a parameter `within: (Point, Point, int) -> bool`.
  A missing profile location is never within.

Three facts about the code that the model keeps as they are:

- `ReservationStatus` declares CANCELED, but `cancel_or_expire_reservation`
  sets EXPIRED (flash_promo/services.py:124), as `expire_reservations` does.
  No code path assigns CANCELED. `NeverCancels`, part of `EngineInvariant`,
  proves that no step creates a CANCELED reservation.
- The beat schedule in app/celery.py:18-27 runs only
  `activate_and_notify_promos` and `notify_active_promos`. No task sweeps
  expired holds. A hold past its deadline stays HOLD, with its unit taken,
  until a confirm, a cancel or the admin action expires it.
- The docstring of `active_promos_for_profile` promises an order by
  distance (flash_promo/queries.py:20), but the query orders nothing and
  annotates nothing. The model returns a plain set.

## Model

| member | source | states |
|---|---|---|
| Constants.PromoStatusValueRoundTrip | flash_promo/constants.py:7-13 | each promo status is stored as its own text, fits the 12-character column, and reads back as itself; no other text reads back as that status |
| Constants.ReservationStatusValueRoundTrip | flash_promo/constants.py:16-23 | the same for the four reservation statuses |
| Models.DefaultStatusesAreInitial | flash_promo/models.py:71-75 | the field defaults only (no operation relies on them, since the hold and the promo creation write their statuses explicitly): a promo defaults to SCHEDULED, the first lifecycle state; a reservation defaults to HOLD (lines 111-115), the only non-terminal status |
| Models.IsActiveNow | flash_promo/admin.py:88-91 | ACTIVE with `starts_at <= now <= ends_at`. The same test is the filter of `Queries.ActivePromosForProfile`, `Tasks.ActiveNow` and the window guard of `Views.ReserveView`; `Tasks.TickActiveNow` relates it to the tick |
| Models.Overwrite | flash_promo/admin.py:65 | the bulk `queryset.update(status=s)`; `Admin.MakeActive`, `Admin.MakeFinished` and `Tasks.Tick` are stated through it |
| Models.StockChangeKeepsCatalog | flash_promo/models.py:53-60 | changing only stock or price keeps every foreign key and the promo window check |
| Models.StockChangeKeepsUniquePairs | flash_promo/models.py:59-60 | changing only stock or price keeps `unique_together (store, product)` |
| Models.StatusChangeKeepsCatalog | flash_promo/models.py:77-83 | changing only promo statuses keeps the catalog constraints, including `starts_at < ends_at` |
| Models.StatusChangeKeepsPromoRefs | flash_promo/models.py:108 | changing one reservation's status keeps its protected promo reference |
| Models.ValidPromoResolves | flash_promo/models.py:67 | in a valid database every promo's StoreProduct and Store exist |
| Admin.MakeActive | flash_promo/admin.py:63-66 | every selected promo becomes ACTIVE and nothing else changes; the count is the number of selected promos that exist; validity is kept |
| Admin.MakeFinished | flash_promo/admin.py:68-71 | the same with FINISHED |
| Admin.MakeActiveReopensFinished | flash_promo/admin.py:63-66 | a selected FINISHED promo moves backwards to ACTIVE, and the rest of its row is untouched |
| Admin.HeldIn | flash_promo/admin.py:109 | the filtered selection is a subset of the selection, and all of it is HOLD |
| Admin.ReleaseEach | flash_promo/admin.py:111-117 | the corrected loop: every chosen reservation is EXPIRED, each row gains one unit per chosen reservation on it, and the count is the number chosen |
| Admin.RestockConserves | flash_promo/admin.py:107-118 | expiring held reservations and restocking one unit each keeps `EngineInvariant`, so no unit is created or lost |
| Admin.ExpireKeepsLedger | flash_promo/admin.py:115-116 | expiring reservations keeps the ledger's references and its promo references |
| Admin.ExpireReservations | flash_promo/admin.py:107-118 | corrected action (see "## Findings"; the code as written is `Admin.ExpireReservationsAsWritten`): only the selected HOLD reservations change, and they become EXPIRED; each row gains one unit per expired reservation on it; the count equals the number of selected HOLDs; the engine invariant and database validity hold |
| Admin.ReleaseEachFromSnapshot | flash_promo/admin.py:111-117 | the loop as written: each row touched is written as its stock loaded before the loop plus one |
| Admin.ExpireReservationsAsWritten | flash_promo/admin.py:107-118 | the action as written: the same status changes and count, with the snapshot restock |
| Admin.SnapshotRestockDistinct | flash_promo/admin.py:111-114 | when the selected HOLDs have distinct StoreProducts, the as-written restock equals the corrected one, and each touched stock rises by exactly 1 |
| Admin.SnapshotRestockLosesUnit | flash_promo/admin.py:111-114 | two HOLDs on one row with stock 5: the as-written action writes 6 where 7 is due, and the row's units drop from 7 to 6 |
| Queries.BehaviorOk | flash_promo/queries.py:13-15 | a new or a frequent user; `Queries.IneligibleWhateverTheDistance`, `Queries.EligibleIffNear`, `Queries.ActivePromosForProfile` and `Services.EligibleProfilesForPromo` state their contracts through it |
| Queries.UserIsEligibleForPromo | flash_promo/queries.py:38-54 | a failed behaviour check means not eligible; eligible implies the profile has a location |
| Queries.IneligibleWhateverTheDistance | flash_promo/queries.py:47-48 | when behaviour fails, the answer does not depend on the distance, the radius or the promo |
| Queries.EligibleIffNear | flash_promo/queries.py:50-54 | eligible iff behaviour holds, the profile has a location, and the promo's store is within the radius of it |
| Queries.ActivePromosForProfile | flash_promo/queries.py:18-35 | the result is exactly the promos that are ACTIVE with `starts_at <= now <= ends_at` and whose store is within the radius; it is empty when behaviour fails; it has no duplicates |
| Queries.ActivePromosMatchEligibility | flash_promo/queries.py:27-30 | in a valid database, a promo is listed iff it is active now and the per-user eligibility check accepts it |
| Queries.GetProfileByUser | flash_promo/queries.py:57-66 | returns the user's profile when there is one, otherwise ProfileDoesNotExist |
| Queries.FoundProfileBelongsToUser | flash_promo/models.py:12-16 | the one-to-one key: a found profile belongs to the user asked for |
| Services.EligibleProfilesForPromo | flash_promo/services.py:15-28 | only existing profiles with the behaviour flag and a location are returned |
| Services.EligibleAgreesWithUserCheck | flash_promo/services.py:22-27 | for a symmetric distance, the audience filter and the per-user check agree on every profile |
| Services.NotifiedOn | flash_promo/services.py:37-41 | a user is in the set iff the log has that user's key for (promo, today) |
| Services.ProfilesToNotifyForPromo | flash_promo/services.py:31-43 | users to notify = eligible users without a log key for (promo, today) |
| Services.Increment | flash_promo/services.py:92-94 | the filtered `F("stock") + 1` raises only the named row, and by exactly 1 |
| Services.HoldSpec | flash_promo/services.py:46-65 | a hold fails iff stock is 0, and then nothing changes; otherwise exactly one new HOLD under an unused token, stock −1 on that row only, and `expires_at = now + 60` |
| Services.ConfirmRejectsSpec | flash_promo/services.py:78-89 | unknown token or another user's reservation → DoesNotExist; not HOLD → "not in HOLD state"; neither changes the ledger |
| Services.ConfirmExpiredSpec | flash_promo/services.py:90-96 | a HOLD past its deadline: stock +1 on its row, the reservation becomes EXPIRED, and "Reservation expired" is reported |
| Services.ConfirmLiveSpec | flash_promo/services.py:97-99 | a live HOLD becomes CONFIRMED and no stock moves |
| Services.ReleaseSpec | flash_promo/services.py:116-127 | a non-HOLD reservation is returned unchanged; a HOLD gets stock +1 and becomes EXPIRED |
| Services.HoldKeepsInvariant | flash_promo/services.py:55-65 | a hold keeps `EngineInvariant`: stock + HOLD + CONFIRMED is constant per row, terminal rows stay frozen, nothing becomes CANCELED |
| Services.ExpireOneConserves | flash_promo/services.py:91-96 | expiring one HOLD keeps `EngineInvariant` |
| Services.ConfirmKeepsInvariant | flash_promo/services.py:70-107 | every confirm outcome keeps `EngineInvariant` |
| Services.ReleaseKeepsInvariant | flash_promo/services.py:110-127 | cancel-or-expire keeps `EngineInvariant` |
| Services.EngineInvariantTransitive | flash_promo/services.py:46-127 | the invariant composes across any run of engine steps |
| Services.ReleaseIdempotent | flash_promo/services.py:117-125 | cancel-or-expire twice equals once |
| Services.HoldThenReleaseRestoresStock | flash_promo/services.py:55-65 | a hold followed by the release of its reservation restores every stock exactly |
| Services.ExpiredConfirmThenNotHold | flash_promo/services.py:103-107 | after "Reservation expired", a second confirm reports "not in HOLD state" and moves no stock |
| Services.ConfirmedIsFinal | flash_promo/services.py:98-118 | a confirmed reservation stays CONFIRMED; confirming again reports "not in HOLD state", releasing it returns it unchanged, and neither moves anything |
| Services.HoldManyTakesAtMostStock | flash_promo/services.py:53-58 | no overselling: of k sequential holds on a row with n units, exactly min(k, n) succeed, and n − min(k, n) remain |
| Services.HoldStoreProduct | flash_promo/services.py:46-65 | the method's result and new ledger are exactly `HoldStep` on the old ledger; validity is kept |
| Services.ConfirmReservation | flash_promo/services.py:70-107 | the result and new ledger are exactly `ConfirmStep`; the flags are raised after the write; validity is kept |
| Services.CancelOrExpireReservation | flash_promo/services.py:110-127 | the result and new ledger are exactly `ReleaseStep`; validity is kept |
| Tasks.Tick | flash_promo/tasks.py:14-28 | the activation loop followed by the bulk finishing update over the table it left; no promo is added or removed |
| Tasks.TickPointwise | flash_promo/tasks.py:11-28 | per promo, the tick activates the promos due, finishes the promos that are over, and leaves every other promo alone; a promo activated in this tick is not finished in it |
| Tasks.TickMovesForward | flash_promo/tasks.py:19-28 | the tick only moves a status forward and keeps every other field |
| Tasks.StaleScheduledStays | flash_promo/tasks.py:14-18 | a SCHEDULED promo with `ends_at <= now` stays SCHEDULED |
| Tasks.TickActiveNow | flash_promo/tasks.py:14-28 | right after a tick, a promo is active now (the admin column at flash_promo/admin.py:88-91) iff it already was or the tick just activated it |
| Tasks.ActivatedNotFinished | flash_promo/tasks.py:14-28 | no promo the tick activates is among those the same instant would finish |
| Tasks.TickIdempotent | flash_promo/tasks.py:11-28 | a second tick at the same `now` changes nothing and activates nothing |
| Tasks.ActivateAndNotifyPromos | flash_promo/tasks.py:11-28 | the new promo table is the tick of the old one; the queued notify requests list each activated promo exactly once; validity is kept |
| Tasks.BatchEnd | flash_promo/tasks.py:37 | the clipped slice end is never past the list and a slice is at most 1000 long |
| Tasks.Batches | flash_promo/tasks.py:36-37 | every batch has 1 to 1000 ids; there are no batches iff there are no ids |
| Tasks.BatchesFlatten | flash_promo/tasks.py:36-37 | the batches, concatenated, are the ids in order |
| Tasks.BatchesSizes | flash_promo/tasks.py:8 | all batches but the last hold exactly 1000 ids; there are ceil(n / 1000) batches |
| Tasks.JobsFor | flash_promo/tasks.py:37 | one `send_push_batch` job per batch, in order, for this promo |
| Tasks.NotifyPromo | flash_promo/tasks.py:31-40 | an unknown promo fails; otherwise the jobs are one per batch of the audience ids, in order |
| Tasks.NotifyCoversAudience | flash_promo/tasks.py:34-40 | the jobs cover exactly the users to notify, and there are no jobs iff there is nobody to notify |
| Tasks.LogKeys | flash_promo/tasks.py:46 | the keys are exactly (user, promo, today) for the users of the batch |
| Tasks.InsertLog | flash_promo/tasks.py:46-47 | the insert keeps the old log, adds a key for every user, and adds nothing else |
| Tasks.InsertLogIdempotent | flash_promo/tasks.py:47 | inserting the same batch twice equals inserting it once |
| Tasks.InsertAllFlatten | flash_promo/tasks.py:42-47 | running the batches one by one logs the same keys as one insert of all their users |
| Tasks.FanOutEmptiesAudience | flash_promo/services.py:31-43 | once every batch of a notify has run, nobody is left to notify for that promo today |
| Tasks.SendPushBatch | flash_promo/tasks.py:42-47 | the log becomes old ∪ keys; an empty batch never fails; a non-empty batch on a deleted promo fails the insert and changes nothing |
| Tasks.ActiveNow | flash_promo/tasks.py:53-57 | the promos that are ACTIVE with `starts_at <= now <= ends_at` |
| Tasks.NotifyActivePromos | flash_promo/tasks.py:50-59 | one notify request per promo active now, each exactly once; nothing is modified |
| Serializers.MissingPromoFields | flash_promo/serializers.py:142-146 | names exactly the required fields absent from the body |
| Serializers.ValidatePromo | flash_promo/serializers.py:148-176 | accepted iff the StoreProduct exists, both times are present, `ends_at − starts_at >= 60`, and the price is present and below the base price |
| Serializers.CreateFlashPromo | flash_promo/serializers.py:178-186 | an accepted promo is SCHEDULED, satisfies the window check, has `0 <= promo_price < base_price`, and carries exactly the input's values |
| Serializers.CreateFlashPromoAccepts | flash_promo/serializers.py:145-176 | creation succeeds iff no field is missing, the price is not negative, and `validate` passes |
| Serializers.FieldErrorsBeforeLookup | flash_promo/serializers.py:145-149 | field errors are reported before the StoreProduct table is consulted |
| Serializers.CreatedPromoKeepsCatalog | flash_promo/models.py:78-83 | an accepted promo inserted into the table keeps the catalog constraints |
| Serializers.ValidateStoreProduct | flash_promo/serializers.py:100-121 | accepted iff the store exists, the product exists, and (on create) the pair is new; a PairExists error occurs only on create |
| Serializers.CreateStoreProduct | flash_promo/serializers.py:123-126 | the new row references an existing store and product on a new pair; stock defaults to 0 |
| Serializers.CreateStoreProductKeepsPairsUnique | flash_promo/serializers.py:114-117 | inserting a created row keeps the (store, product) key unique |
| Serializers.UpdateStoreProduct | flash_promo/serializers.py:128-134 | an update never changes the store or the product |
| Serializers.UpdateStoreProductKeepsPairsUnique | flash_promo/serializers.py:114-134 | an update never fails on the pair check, and keeps the (store, product) key unique |
| Serializers.UpdateStore | flash_promo/serializers.py:78-87 | the location moves only when both coordinates are given; the name is replaced only when given |
| Serializers.UpdateStoreIdempotent | flash_promo/serializers.py:78-87 | updating twice with the same body equals updating once |
| Serializers.FullUpdateIsCreate | flash_promo/serializers.py:73-87 | an update giving every field builds the store a create would build: same name, and the point built longitude first (`Point(lon, lat)`) from the given coordinates |
| Serializers.SaveStoreUpdate | flash_promo/serializers.py:78-87 | the stored row becomes the updated instance and nothing else changes; validity is kept |
| Views.ActivePromosView | flash_promo/views.py:40-46 | a user without a profile gets a 500; otherwise a 200 with the active-promo set |
| Views.ReserveView | flash_promo/views.py:59-91 | the answer is one of 201/400/403/404/500, and only a 201 changes the ledger |
| Views.ReserveUnknownPromoFirst | flash_promo/views.py:62-65 | an unknown promo gets a 404; nothing else is consulted and nothing changes |
| Views.ReserveInactiveBeforeEligibility | flash_promo/views.py:67-71 | an inactive promo gets a 400 "Promo not activated", whatever the profiles or the distance |
| Views.ReserveIneligibleNeverHolds | flash_promo/views.py:73-78 | an ineligible user gets a 403 and the ledger is untouched |
| Views.ReserveNoStockIsBadRequest | flash_promo/views.py:80-83 | a hold failing on no stock gets a 400 with its text, and nothing changes |
| Views.ReserveCreatedIff | flash_promo/views.py:59-91 | 201 iff the promo exists, is active now, the profile exists, the user is eligible, and stock > 0; the body is then the new token with `now + 60`, and the ledger is the hold's |
| Views.ReserveKeepsInvariant | flash_promo/views.py:80-83 | any reserve request keeps `EngineInvariant` |
| Views.CheckoutView | flash_promo/views.py:104-120 | the answer is 200/400/404; a 404 changes nothing; a missing token gets a 400 |
| Views.CheckoutOutcomes | flash_promo/views.py:107-120 | 404 iff the token is unknown or owned by another user; 200 iff the reservation is a live HOLD, returned CONFIRMED |
| Views.CheckoutExpiredStillReturnsUnit | flash_promo/views.py:114-115 | an expired hold gets a 400 "Reservation expired", yet its unit is back and it is EXPIRED |
| Views.CheckoutKeepsInvariant | flash_promo/views.py:107-111 | any checkout keeps `EngineInvariant` |
| Views.CancelView | flash_promo/views.py:132-147 | the answer is 200/400/404, and only a 200 can change the ledger |
| Views.CancelAndCheckoutAgreeOnNotFound | flash_promo/views.py:135-141 | cancel and checkout give a 404 for exactly the same (token, user) |
| Views.CancelFoundOutcome | flash_promo/views.py:143-147 | a found reservation gets a 200; a HOLD comes back EXPIRED with its unit returned; anything else comes back unchanged |
| Views.CancelKeepsInvariant | flash_promo/views.py:143 | any cancel keeps `EngineInvariant` |
| Permissions.HasPermission | flash_promo/permissions.py:7-10 | granted only when there is a user |
| Permissions.NoUserDenied | flash_promo/permissions.py:9-10 | a request without a user is always denied |
| Permissions.SafeIffAuthenticated | flash_promo/permissions.py:8-9 | a safe method is allowed iff the user is authenticated |
| Permissions.UnsafeIffStaff | flash_promo/permissions.py:10 | any other method is allowed iff the user is staff |
| Permissions.WritesAreUnsafe | flash_promo/permissions.py:8 | GET, HEAD and OPTIONS are safe; POST, PUT, PATCH and DELETE are not |
| Permissions.DependsOnlyOnSafetyAndFlags | flash_promo/permissions.py:7-10 | two methods with the same safeness get the same decision |

## Left out

- **Row locks and transactions** (`select_for_update`, `transaction.atomic`) are not modelled. Each service function is one atomic method, and concurrent requests are not modelled. The cancel view reads the reservation's status before the service locks anything. That is safe only sequentially, which is how it is modelled.
- **Geodesic distance and PostGIS geometry** are not computed. They are the `within` parameter.
- **`uuid.uuid4()`** becomes the `nextToken` counter.
- **`timezone.now()` and `localdate()`** become `now` and `today` parameters. The reserve view reads the clock several times; the model uses one `now` for the whole request.
- **Column widths and floats.** `stock` is a `PositiveIntegerField`: a 32-bit column with a CHECK `>= 0`. The model's `stock` is an unbounded `nat`, so the database error that `stock + 1` or `F("stock") + 1` raises at 2147483647 is not modelled. The store's `lat`/`lon` are `FloatField`s, but the model's `Point` holds them as `real`, without rounding.
- **Number formats.** Decimal prices become integer cents. Datetimes become integer seconds, so `total_seconds()` loses its sub-second part.
- **Celery** (`.delay`, `group(...).apply_async`, the beat schedule) is not modelled. Queued work is modelled as the returned list of promo ids or jobs. No push is sent anywhere: the code has no transport.
- **Per-row saves.** The loops of `expire_reservations` and `activate_and_notify_promos` save each row as they go. The model's methods build the new tables locally and write them once at the end. The final state is the same, but a partial failure mid-loop is not modelled.
- **Uniqueness keys outside `Database.Valid`.** The (store, product) and SKU uniqueness keys are separate predicates, not part of `Database.Valid`. The serializer lemmas and `StockChangeKeepsUniquePairs` show that stock changes, creates and updates keep the pair key. The SKU key's product writes are not part of this model.
- **Users table.** The `User` model and its foreign keys are not part of this model: users are bare ids, so a log row or reservation naming a deleted user is not rejected.
- **Auto-increment ids.** New promo, StoreProduct and store rows get their ids from the database. The lemmas take the id as a parameter.
- **Framework checks.** The DRF field-level type and required checks of the StoreProduct and store serializers are not modelled; their inputs are taken as already typed. `ProductSerializer`, the list and response serializers, the ModelViewSets, `get_object_or_404` on viewset routes, `app/urls.py`, `extend_schema` and the `print` in `ActivePromosView` are not part of this model. The `IsAuthenticated` gate in front of the reservation views is not modelled either: the views take an authenticated user id.
- **Error texts.** `get_profile_by_user`'s message text is not modelled; only the error and the user it names are. The hold's `No stock for ` text is kept exactly as the code writes it, with nothing after it.
- **Distance ordering.** The active-promo query's docstring promises an ordering by distance. The code builds no ordering, so none is modelled.
- **Fixture migration.** `flash_promo/migrations/0003_initial_data.py` only seeds fixture data and is not modelled.
- **Admin configuration.** Display configuration (list columns, filters, search fields) is not modelled.

## Findings

| source | as written | input that shows it | evidently intended | confidence | as-written member | corrected member |
|---|---|---|---|---|---|---|
| flash_promo/admin.py:111-114 | each row is written as the stock loaded with the selection plus one, so two HOLDs on one StoreProduct restore a single unit | one StoreProduct with stock 5 and two selected HOLD reservations on it: both become EXPIRED but stock is written as 6, and one unit of the 7 is lost | every expired HOLD returns its unit (stock 7), as the service's release path does | not executed | Admin.ExpireReservationsAsWritten, Admin.SnapshotRestockLosesUnit | Admin.ExpireReservations, Admin.RestockConserves |
