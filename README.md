# paytrack-api: a verified model of the subscription and charge domain

paytrack-api is a REST back end for tracking recurring subscriptions. A user
keeps categories and subscriptions (a service name, an amount, a monthly or
yearly billing cycle and a next billing date). For each subscription the user
registers charges and then pays them, and receives alerts. A dashboard sums
up the monthly cost and lists the upcoming charges.

This project models the domain layer of that back end in Dafny. It covers
the services, the repositories behind them, and the five tables they read
and write. It proves what each operation promises.

- `tables.dfy` (`Tables`): generic table helpers. `Filter` models a
  `WHERE`, `MapRows` an `UPDATE`, `Find` a `findOne`, and `Pairwise` states
  a relation between every earlier and later row.
- `civil_date.dfy` (`CivilDate`): civil dates and their order. It also has
  the one-month and one-year steps of a JavaScript `Date`, including the
  roll-over of a day past the end of the target month. Both steps are stated
  against an independent day-number count.
- `records.dfy` (`Records`): the rows of the users, categories,
  subscriptions, charges and alerts tables, the typed API errors, and the
  optional-bounds period filter.
- One module per repository: `ChargeRepository`, `SubscriptionRepository`,
  `CategoryRepository`, `AlertRepository`, `UserRepository` and
  `DashboardRepository`. Queries are functions on a table. Updates are
  functions from the old table to the new one.
- One module per service: `ChargeService`, `SubscriptionService`,
  `CategoryService`, `DashboardService` and `UserService`. They hold the
  guard checks, the fallbacks and the date step as functions.
- `store.dfy` (`PaytrackStore`): the class `Store`.
  - It holds the five tables as fields and a key counter.
  - Each mutating service operation is a method. It either fails with a
    typed error and leaves every table as it was, or performs the source's
    fixed sequence of table updates.
  - Every method keeps the invariant `Valid()`. Under it, keys ascend in
    creation order and stay below the counter, and service names and
    category names are unique per user. Every subscription amount is
    positive.

The clock is a parameter: `today` or `now`, a civil date. Money is integer
cents. The monthly equivalents and the average of the dashboard are `real`.
Request values are modelled in their falsy form: `""` for a missing text,
`0` for a missing amount, `None` for a missing id and `Absent` for a missing
date.

## Model

| member | source | states |
|---|---|---|
| CivilDate.AddOneMonth | src/services/ChargeService.js:48 | the date one calendar month on is strictly later, lies `DaysInMonth` days on, and keeps the day-of-month when the next month has it; otherwise the surplus days run into the month after |
| CivilDate.AddOneYear | src/services/ChargeService.js:50 | the date one year on is strictly later and keeps month and day, except 29 February, which becomes 1 March |
| CivilDate.Normalize | src/services/ChargeService.js:48-50 | a day number past the end of a month runs on into the following months: its day number is that of the 1st plus the surplus days, and an in-range day is kept as given |
| CivilDate.MonthAfter | src/services/ChargeService.js:48 | the first of the next month, December rolling into January, lies exactly the month's length in days later |
| CivilDate.ChronologicalOrder | src/services/SubscriptionService.js:42 | comparing dates field by field agrees with comparing day numbers, for both strict and non-strict order |
| CivilDate.MonthRolloverExamples | src/services/ChargeService.js:48 | 31 Jan 2025 + 1 month = 3 Mar; 31 Jan 2024 = 2 Mar; 15 Jan = 15 Feb; 31 Dec 2024 = 31 Jan 2025 |
| CivilDate.YearRolloverExamples | src/services/ChargeService.js:50 | 29 Feb 2024 + 1 year = 1 Mar 2025; 28 Feb 2024 = 28 Feb 2025 |
| Records.CycleOf | src/models/Subscription.js:39-41 | the billing-cycle text maps to Monthly exactly for "monthly" and Yearly exactly for "yearly" |
| ChargeRepository.ListByID | src/repositories/ChargeRepository.js:6-10 | the charge with that id, or None exactly when no charge has it |
| ChargeRepository.SortNewestFirst | src/repositories/ChargeRepository.js:52 | the result is in charge_date-descending order and a permutation of its input |
| ChargeRepository.InsertByDate | src/repositories/ChargeRepository.js:52 | inserting into a newest-first list keeps it newest first and adds exactly that charge |
| ChargeRepository.List | src/repositories/ChargeRepository.js:12-54 | exactly the charges whose subscription belongs to the user, inside the optional inclusive period and with the status when one is given, as a permutation of those rows, newest first |
| ChargeRepository.ListBySubscriptionID | src/repositories/ChargeRepository.js:56-61 | exactly the charges of that subscription, with no owner test, newest first, as a permutation of those rows |
| ChargeRepository.PayCharge | src/repositories/ChargeRepository.js:67-69 | only the row with that id becomes paid; every other row is unchanged |
| ChargeRepository.PayChargeIdempotent | src/repositories/ChargeRepository.js:67-69 | paying twice equals paying once, and an unknown id changes nothing |
| ChargeRepository.PaidChargeIsFoundPaid | src/repositories/ChargeRepository.js:67-69 | after paying an existing id, the lookup finds that charge paid |
| SubscriptionRepository.FindByName | src/services/SubscriptionService.js:16-19 | a subscription of that user with exactly that name, or None exactly when there is none |
| SubscriptionRepository.ListByID | src/services/SubscriptionService.js:113 | the subscription (id, user), or None exactly when the user has no subscription with that id |
| SubscriptionRepository.List | src/services/SubscriptionService.js:62 | exactly the user's subscriptions, with the status and category filters applied only when given |
| SubscriptionRepository.Cancel | src/services/SubscriptionService.js:163 | only the row (id, user) becomes canceled; every other row is unchanged |
| SubscriptionRepository.UpdateNextBillingDate | src/services/ChargeService.js:53-57 | only the next billing date of the row (id, user) changes |
| SubscriptionRepository.Edit | src/services/SubscriptionService.js:146-154 | the five editable columns of the row (id, user) are written; every other row is unchanged |
| SubscriptionRepository.CancelIsIdempotent | src/services/SubscriptionService.js:157-171 | cancelling twice equals cancelling once, and afterwards the row (id, user) is canceled |
| CategoryRepository.List | src/repositories/CategoryRepository.js:4-9 | exactly the categories of the user |
| CategoryRepository.FindByName | src/repositories/CategoryRepository.js:11-18 | a category of that user with exactly that name, or None exactly when there is none |
| CategoryRepository.Edit | src/repositories/CategoryRepository.js:24-34 | only the name of the row matching both id and user changes |
| CategoryRepository.Delete | src/repositories/CategoryRepository.js:36-43 | exactly the rows matching both id and user are removed |
| CategoryRepository.DeleteIsIdempotent | src/repositories/CategoryRepository.js:36-43 | deleting twice equals deleting once |
| CategoryRepository.ForeignIdIsNoop | src/repositories/CategoryRepository.js:24-43 | an edit or delete with an id the user does not own leaves the table as it was |
| CategoryRepository.RenameKeepsNamesUnique | src/repositories/CategoryRepository.js:24-34 | a rename to a name no other category of the user holds keeps names unique per user |
| CategoryRepository.NameTakenOnlyBy | src/services/CategoryService.js:26-29 | when the name lookup finds nothing or finds the renamed category, no other category of the user has that name |
| AlertRepository.List | src/repositories/AlertRepository.js:11-16 | exactly the user's unread alerts |
| AlertRepository.ListOldestFirst | src/repositories/AlertRepository.js:14 | with keys handed out in creation order, the list keeps ascending keys |
| AlertRepository.ReadAlert | src/repositories/AlertRepository.js:18-20 | only the alert matching both user and id becomes read |
| AlertRepository.ReadAlertIdempotent | src/repositories/AlertRepository.js:18-20 | marking read twice equals marking read once |
| AlertRepository.ReadAlertLeavesList | src/repositories/AlertRepository.js:11-20 | after the owner reads alert id it leaves their list, and every other alert keeps its membership in every user's list |
| UserRepository.FindByID | src/repositories/UserRepository.js:23-25 | the user with that id, or None exactly when there is none |
| UserRepository.Edit | src/repositories/UserRepository.js:10-17 | only name, currency and notifications flag of that user change |
| UserRepository.Delete | src/repositories/UserRepository.js:19-21 | exactly the row with that id is removed |
| DashboardRepository.Matching | src/repositories/DashboardRepository.js:8-26 | exactly the user's active subscriptions created inside the window: from midnight of the lower bound's day, and up to the upper bound, which is midnight (excluding that day) for a date the caller gives and the current instant (including today) by default; one-sided or no bound as given |
| DashboardRepository.PricedCountsPricedRows | src/repositories/DashboardRepository.js:49-61 | the divisor of AVG is the number of rows whose cycle has a monthly equivalent |
| DashboardRepository.ActiveCountCountsActiveRows | src/repositories/DashboardRepository.js:43-48 | the COUNT column is the number of active rows |
| DashboardRepository.Aggregate | src/repositories/DashboardRepository.js:28-65 | the SUM is NULL exactly over no rows and otherwise the sum of monthly equivalents; actives is the count of active rows; the AVG is NULL exactly when no row has a monthly or yearly cycle, and otherwise AVG times the number of priced rows is the SUM |
| DashboardRepository.GetSummary | src/repositories/DashboardRepository.js:7-74 | the total is present exactly when some subscription is counted |
| DashboardRepository.TotalsAdd | src/repositories/DashboardRepository.js:31-61 | the sum, the count of priced rows and the count of active rows add up across a split of the rows |
| DashboardRepository.ActivesCountsEveryRow | src/repositories/DashboardRepository.js:43-48 | over active rows the COUNT counts every row |
| DashboardRepository.KnownCyclesArePriced | src/repositories/DashboardRepository.js:49-61 | when every cycle is monthly or yearly, AVG divides by the number of rows |
| DashboardRepository.SummaryOfSelection | src/repositories/DashboardRepository.js:7-74 | actives is the number of selected subscriptions, and with known cycles the average is the total over that number |
| DashboardRepository.EmptySelection | src/repositories/DashboardRepository.js:67-73 | with nothing selected the row is (NULL, 0, NULL) rather than the all-zero fallback |
| DashboardRepository.MixedCyclesExample | src/repositories/DashboardRepository.js:31-61 | yearly 120.00 and monthly 29.90 give total 39.90, 2 actives and average 19.95 |
| DashboardRepository.GetUpcoming | src/repositories/DashboardRepository.js:76-99 | succeeds exactly with both bounds; then exactly the pending charges dated inside them whose subscription is active and the user's |
| DashboardService.FirstOfMonth | src/services/DashboardService.js:8-12 | day 1 of now's month, not after now |
| DashboardService.SummaryWindow | src/services/DashboardService.js:6-15 | given any bound, the lower bound passes on unchanged and the upper one becomes midnight of its day; given none, the window is [first of this month, now] with start not after end |
| DashboardService.CallerFinalDayIsExcluded | src/services/DashboardService.js:6-21 | with a caller's final date, a subscription is in the window exactly when it was created before that day and not before the initial day |
| DashboardService.DefaultWindowIsMonthToDate | src/services/DashboardService.js:6-15 | a date is in the default window exactly when it is in the current month and not after today |
| DashboardService.GetSummary | src/services/DashboardService.js:5-28 | always a summary, never NotFound; its actives count the subscriptions the window selects, and its total is present exactly when one is selected |
| DashboardService.DefaultSummaryCountsThisMonth | src/services/DashboardService.js:5-28 | with no bounds, a subscription is counted exactly when it is the user's, active, and created this month up to today |
| DashboardService.GetUpcoming | src/services/DashboardService.js:30-32 | forwarding only the user id always fails, whatever bounds the caller gives |
| DashboardService.GetUpcomingInWindow | src/services/DashboardService.js:30-32 | with the bounds forwarded, succeeds exactly with both and lists exactly the upcoming charges inside them |
| ChargeService.CreateCheck | src/services/ChargeService.js:24-37 | NotFound exactly when (user, subscription) is absent, Unprocessable exactly when it is canceled, success exactly when it is active, with that subscription; no other outcome |
| ChargeService.NextBillingDate | src/services/ChargeService.js:45-51 | from the stored date, not from now: one month on for "monthly", one year on otherwise, always strictly later |
| ChargeService.StepKeepsDay | src/services/ChargeService.js:45-51 | a monthly date up to the 28th keeps its day in the next month; a yearly date other than 29 February keeps month and day |
| ChargeService.PayCheck | src/services/ChargeService.js:66-75 | NotFound exactly when no charge has the id, BadRequest exactly when the charge found is paid, Done exactly when it is pending; no other outcome |
| ChargeService.PayingTwiceIsRejected | src/services/ChargeService.js:66-77 | after a successful payment, paying the same id again is a BadRequest |
| SubscriptionService.ValidateSubscriptionData | src/services/SubscriptionService.js:10-47 | Conflict exactly when the user has a same-named subscription; passes exactly when there is none, the amount is not negative and the date parses and is after today; any other input is a BadRequest |
| SubscriptionService.CreateCheck | src/services/SubscriptionService.js:77-92 | passes exactly when every field is truthy, the amount positive, the date after today and the name free for the user; Conflict exactly when the fields are present and the name is taken |
| SubscriptionService.OtherUsersNamesDoNotConflict | src/services/SubscriptionService.js:16-19 | a name held only by other users never makes Create conflict |
| SubscriptionService.NewSubscription | src/services/SubscriptionService.js:94-101 | the inserted row carries the given fields, status active and creation date today |
| SubscriptionService.ListCheck | src/services/SubscriptionService.js:49-56 | an empty status is no filter, "active" and "canceled" select that status, any other status is a BadRequest |
| SubscriptionService.List | src/services/SubscriptionService.js:49-63 | BadRequest exactly for an invalid status; otherwise exactly the user's subscriptions under the given status and category filters |
| SubscriptionService.Fallbacks | src/services/SubscriptionService.js:119-137 | each falsy argument is replaced by the stored value, and each truthy one is kept |
| SubscriptionService.EditCheck | src/services/SubscriptionService.js:104-145 | NotFound exactly when (user, id) is absent; once the row is found, Conflict exactly when any subscription of the user holds the fallback name (the edited row included), BadRequest exactly when none does and the amount is negative or the date is not in the future, and success exactly otherwise, with the fallback values; no other outcome |
| SubscriptionService.EditKeepingNameConflicts | src/services/SubscriptionService.js:119-121 | an Edit that keeps or omits the current service name always fails with Conflict |
| SubscriptionService.FindOtherByName | src/services/SubscriptionService.js:16-19 | a same-named subscription of the user other than the edited one, or None exactly when there is none |
| SubscriptionService.EditCheckExcludingSelf | src/services/SubscriptionService.js:104-145 | as Edit, but once the row is found Conflict exactly when another subscription of the user holds the fallback name, BadRequest exactly when none does and the amount or date is invalid, success exactly otherwise, with the fallback values |
| SubscriptionService.KeepingNameIsAccepted | src/services/SubscriptionService.js:119-121 | with unique names, keeping the current name passes the corrected check when amount and date are valid |
| SubscriptionService.StaleStoredDateIsRejected | src/services/SubscriptionService.js:131-133 | an Edit that omits the date once the stored date is no longer after today fails: with BadRequest exactly when no other subscription of the user holds the name, otherwise with Conflict |
| CategoryService.TrimStart | src/services/CategoryService.js:10 | the suffix left after the leading white space, which does not start with white space |
| CategoryService.TrimEnd | src/services/CategoryService.js:10 | the prefix left before the trailing white space, which does not end with white space |
| CategoryService.BlankIsAllWhitespace | src/services/CategoryService.js:10 | a name is blank exactly when every character is ECMAScript white space |
| CategoryService.CreateCheck | src/services/CategoryService.js:9-17 | BadRequest exactly for a blank name; Conflict exactly when the user already has that exact name |
| CategoryService.NewCategory | src/services/CategoryService.js:19 | the inserted row carries the name as given and the optional color |
| CategoryService.EditCheck | src/services/CategoryService.js:22-29 | BadRequest exactly for a blank name; Conflict only when another category of the user holds the name; success only when the name is free or the category's own |
| CategoryService.RenameToFreeOrOwnNameAccepted | src/services/CategoryService.js:26-29 | renaming to the category's own name, or to a name free for the user, is accepted |
| CategoryService.AcceptedRenameKeepsNamesUnique | src/services/CategoryService.js:22-31 | an accepted rename keeps names unique per user |
| UserService.Get | src/services/UserService.js:5-11 | NotFound exactly when the user is absent, otherwise that user |
| UserService.EditValues | src/services/UserService.js:13-24 | an empty name or currency falls back to the stored one; the flag falls back only when not sent; a missing user is a fault exactly when a fallback reads it |
| UserService.EmptyEditKeepsProfile | src/services/UserService.js:13-31 | an Edit sending nothing writes the stored profile back |
| PaytrackStore.CascadeCategories | src/models/index.js:8-11 | exactly the categories of other users remain |
| PaytrackStore.CascadeSubscriptions | src/models/index.js:16-19 | exactly the subscriptions of other users remain |
| PaytrackStore.CascadeCharges | src/models/index.js:41-44 | exactly the charges not belonging to a subscription of the user remain |
| PaytrackStore.CascadeAlerts | src/models/index.js:24-27 | exactly the alerts of other users remain |
| PaytrackStore.CategoryRenameKept | src/services/CategoryService.js:26-31 | a rename the name lookup allows keeps the category table valid |
| PaytrackStore.Store.AddCharge | src/repositories/ChargeRepository.js:63-65 | appends exactly one pending charge with a fresh key and changes nothing else |
| PaytrackStore.Store.AddAlert | src/repositories/AlertRepository.js:4-9 | appends exactly one unread alert for the user with a fresh key and changes nothing else |
| PaytrackStore.Store.CreateCharge | src/services/ChargeService.js:24-64 | on NotFound or Unprocessable no table changes; on success one pending charge dated today with the snapshot amount, the subscription's next billing date moved one cycle, and one alert naming the service and amount, with two fresh keys used |
| PaytrackStore.Store.RegisterCharge | src/services/ChargeService.js:39-63 | the three updates of a registration, in order, and nothing else |
| PaytrackStore.Store.UpdateNextBillingDate | src/services/ChargeService.js:53-57 | only the next billing date of (id, user) changes, and the store stays valid |
| PaytrackStore.Store.PayCharge | src/services/ChargeService.js:66-77 | the result is the pay check, Done exactly when the charge found is pending; then exactly that charge becomes paid, otherwise nothing changes |
| PaytrackStore.Store.CreateSubscription | src/services/SubscriptionService.js:69-102 | the result is the Create check; on success exactly one active subscription created today is appended, with a positive amount and a future date |
| PaytrackStore.Store.EditSubscription | src/services/SubscriptionService.js:104-155 | the Edit as written: the result follows EditCheck; on success exactly the subscription (id, user) gets the fallback values, otherwise nothing changes; keeping or omitting the current name of a found subscription always gives Conflict and changes nothing |
| PaytrackStore.Store.EditSubscriptionExcludingSelf | src/services/SubscriptionService.js:104-155 | the corrected Edit: the result follows EditCheckExcludingSelf, with the same update on success and no change on failure |
| PaytrackStore.Store.WriteEdit | src/services/SubscriptionService.js:146-154 | the update scoped by (id, user) with the checked values, keeping the store's invariants and every other table |
| PaytrackStore.Store.CancelSubscription | src/services/SubscriptionService.js:157-171 | NotFound exactly when (user, id) is absent; otherwise that subscription is canceled and one alert naming it is appended with one fresh key, including on a repeat cancel |
| PaytrackStore.Store.CreateCategory | src/services/CategoryService.js:9-20 | the result is the Create check; on success exactly one category with the given name and color is appended |
| PaytrackStore.Store.EditCategory | src/services/CategoryService.js:22-32 | the result is the Edit check; on success the rename scoped by (id, user), otherwise nothing changes |
| PaytrackStore.Store.WriteRename | src/services/CategoryService.js:26-31 | with the name free or the category's own, the rename scoped by (id, user) keeps the store's invariants and every other table |
| PaytrackStore.Store.DeleteCategory | src/services/CategoryService.js:34-36 | the delete scoped by (id, user), never an error |
| PaytrackStore.Store.ReadAlert | src/services/AlertService.js:11-13 | the read flag of the user's alert id is set and nothing else changes |
| PaytrackStore.Store.EditUser | src/services/UserService.js:13-31 | a fault with no change exactly when the fallbacks read a missing user; otherwise the three fields after fallbacks are written to that user |
| PaytrackStore.Store.DeleteUser | src/services/UserService.js:33-35 | the user goes, and with them their categories, subscriptions, the charges of those subscriptions and their alerts; nothing else changes |
| PaytrackStore.Store.RemoveCharges | src/models/index.js:41-44 | removes exactly the charges of the user's subscriptions |
| PaytrackStore.Store.RemoveAlerts | src/models/index.js:24-27 | removes exactly the user's alerts |
| PaytrackStore.Store.RemoveSubscriptions | src/models/index.js:16-19 | removes exactly the user's subscriptions |
| PaytrackStore.Store.RemoveCategories | src/models/index.js:8-11 | removes exactly the user's categories |
| PaytrackStore.Store.RemoveAccount | src/repositories/UserRepository.js:19-21 | removes exactly the user's row |

## Left out

- Time zones are not modelled, and time of day only as the dashboard window needs it (see DashboardRepository.Matching below). `new Date()` is taken to be today's civil date, the parameter `today` or `now`. A date-only string is taken as midnight at the start of its day, and the local-time `setMonth`/`setFullYear` as acting on the civil date.
- `Date.parse` is abstracted. A `next_billing_date` is `Absent`, `Malformed` (not a string, or unparsable) or a calendar day. Which strings parse is not modelled.
- Keys are UUIDs in the store. Here they are numbers drawn from one counter, so creation order is key order. The ascending `created_at` order of the alert list is stated as ascending keys.
- Database constraints are not modelled: the `ENUM` of `billing_cycle` and the statuses, the foreign keys between tables, and what deleting a category that subscriptions still reference does. The services store any non-empty billing-cycle text; the model keeps it as `OtherCycle` and prices it as the SQL `CASE` does.
- `DECIMAL(10, 2)` amounts are integer cents. The dashboard's `/ 12.0` and `AVG` are exact `real` arithmetic, so rounding is not modelled.
- Alert texts are a datatype naming the service (and the amount). The Portuguese message strings and the amount's number formatting are not modelled.
- `src/repositories/SubscriptionRepository.js` defines only `Create`. It passes its six values positionally to `Subscription.create`, which expects one object. The operations the services call on it (FindByName, ListByID, List, Cancel, UpdateNextBillingDate, Edit) are not part of this model's sources. They are modelled as table operations scoped by (user, id) or by (name, user), as their callers use them. `Create` is modelled by its evident intent: one row appended.
- The order of `SubscriptionRepository.List` and `CategoryRepository.List` is left open: the model returns table order, and no SQL order is given.
- The service `List` and `ListByID` delegations of the charge, subscription, category and alert services are not separate members. They are the repository functions they return.
- Registration and login (bcrypt, JWT), the HTTP controllers and routes, and the request parsing that produces each argument are not modelled. The store's constructor takes the registered accounts.
- Concurrency is not modelled. The check-then-act sequences of PayCharge and Cancel, and the three non-transactional steps of charge creation, each run as one atomic method.
- DashboardRepository.GetSummary: the `result || zeros` fallback cannot fire, because an aggregate without `GROUP BY` always yields one row. An empty selection therefore gives `NULL` sum and average, modelled as `None`, rather than zeros.
- DashboardService.GetSummary: the `NotFound` branch is unreachable for the same reason. The contract states that the result is always a summary.
- DashboardRepository.GetUpcoming: an invalid bound (`new Date(undefined)`) is modelled as a query the store rejects, the generic `Fault`. What the database driver really does with an invalid date is not modelled.
- DashboardRepository.Matching: `created_at` is reduced to its calendar day. A subscription created exactly at midnight of a caller's final day, which the source counts, is not counted. A bound the caller gives with a time of day is not modelled; a caller's bound is a date string, taken as midnight.
- PaytrackStore.Store.CreateCharge: the charge amount is the subscription's amount. The store's `min: 0.01` on charge amounts is not an invariant of the model.
- UserService.Delete's cascades are those `src/models/index.js` declares (`onDelete: "CASCADE"`). Database enforcement is assumed, not modelled.

## Findings

| source | as written | input that shows it | evidently intended | confidence | as-written member | corrected member |
|---|---|---|---|---|---|---|
| src/services/SubscriptionService.js:119-144 | Edit reruns the duplicate-name lookup of Create, which also finds the subscription being edited | any Edit of an existing subscription that sends no `service_name` (or its current one), e.g. only a new amount | only another subscription of the user with the same name conflicts, as in the category Edit | not executed | SubscriptionService.EditKeepingNameConflicts, PaytrackStore.Store.EditSubscription | SubscriptionService.KeepingNameIsAccepted, PaytrackStore.Store.EditSubscriptionExcludingSelf |
| src/services/DashboardService.js:30-32 | GetUpcoming passes only `user_id`, so both bounds of the repository's `BETWEEN` are `undefined` | any call, with or without a period | the caller's period is forwarded to the repository | not executed | DashboardService.GetUpcoming | DashboardService.GetUpcomingInWindow |
