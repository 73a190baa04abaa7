# Food-donation server: a verified model of its donation logic

The server (`index.js`) lets restaurants give surplus food to food pantries.
Its behaviour lies almost entirely in the SQL it sends to MySQL. This project
treats the database as five in-memory tables: maps from primary key to row
for `USER`, `Restaurant`, `Food_Item`, `Donation` and `Food_Pantry`
(`schema.dfy`). Over these tables it models:

- **POST /api/donation/create** (`workflow.dfy`). `Database.CreateDonation`
  is a method on a `Database` class that holds the tables and the
  AUTO_INCREMENT counters of `Food_Item` and `Donation`.
  - The five request fields must be truthy in JavaScript's sense.
  - Inside a transaction it inserts a Fresh food item, then a Pending
    donation of it dated NOW(), then commits.
  - ROLLBACK restores a snapshot taken at BEGIN.
  - A failure of each database call is an input (`CreateFaults`).
  - A failure of the read-back after COMMIT still answers 500. The rows are
    committed and stay. The model keeps this behaviour as written.
- **POST /api/donation/update-status** (`Database.UpdateStatus`).
  - Both fields must be truthy.
  - A failing UPDATE answers 500.
  - An id that matches no row answers 404.
  - Otherwise only that donation's Status is replaced, verbatim.
- **The read views** (`views.dfy`), as pure functions of the tables:
  - the Head Chef restaurant list with per-restaurant donation counts;
  - the pantry manager's donation list, Pending first and newest first;
  - the logistics overview, newest first;
  - the NGO per-pantry totals, under a LEFT JOIN;
  - the pantries' occupancy, under a LEFT JOIN restricted to Pending rows.

  ORDER BY is a stable sort (`ordering.dfy`).
- **POST /api/login** (`login.dfy`): a case-insensitive search of four fixed
  accounts, returning the first account that matches.

The lemmas in `workflow.dfy` connect the writes to the views:
- a committed create adds one to its pantry's Total, Pending and current
  counts, and its own donation joins when its restaurant and pantry exist;
- settling a Pending donation lowers its pantry's Pending and current
  counts by one and keeps its Total;
- a status update changes no join.

## Model

| member | source | states |
|---|---|---|
| Workflow.Database.CreateDonation | index.js:146-207 | A falsy field answers 400 "Missing required fields" and changes nothing. A failing BEGIN, INSERT or COMMIT answers 500 "Failed to create donation" and leaves every table as before; each INSERT that succeeded before the failure has spent its counter value. Otherwise the tables become `Created(...)` under the next two counter values. The answer is then 500 if the read-back fails, else the success message with the joined row. `Valid()` (every key is below its counter) is preserved. |
| Workflow.VerifyRow | index.js:177-193 | The read-back finds a row exactly when the donation survives the three inner joins. That row carries the donation's id and the same food item, source, quantity, status and date as its row in the pantry manager's view, plus its pantry's name. |
| Workflow.Database.InsertFoodItem | index.js:160-163 | The item is stored under the counter's value, which no existing row has. The counter advances by one and nothing else changes. |
| Workflow.Database.InsertDonation | index.js:167-170 | The donation is stored under the counter's value, which no existing row has. The counter advances by one and nothing else changes. |
| Workflow.Database.Restore | index.js:199-200 | ROLLBACK: the rows become the snapshot again. The counters keep the ids already handed out. |
| Workflow.Database.UpdateStatus | index.js:210-239 | A falsy field answers 400 and changes nothing. A failing UPDATE answers 500 and changes nothing. An unknown id answers 404 "Donation not found" and changes nothing. Otherwise the answer is "Status updated successfully" and the tables become `WithStatus(old tables, id, status)`. The counters are unchanged and `Valid()` is preserved. |
| Workflow.CreateAddsExactlyTwoRows | index.js:160-170 | A committed create adds exactly one Food_Item key and one Donation key, the fresh ids. Each table grows by exactly one row. |
| Workflow.CreateKeepsOtherRows | index.js:155-173 | Every row that existed before a create is still there and unchanged. USER, Restaurant and Food_Pantry are untouched. |
| Workflow.CreatedRowsCarryRequest | index.js:160-170 | The item has the request's restaurant, name, quantity and type, with Condition Fresh. The donation points at the new item. It has the request's pantry, the item's quantity, the time of the request and Status Pending. |
| Workflow.CreatedReadBack | index.js:176-196 | The read-back finds the new donation exactly when its restaurant and pantry exist. It then reports the request's name, quantity, restaurant name, pantry name, Pending and the request time. |
| Workflow.CreatedDonationSets | index.js:167-170 | After a create, the new id joins the donations addressed to its pantry and that pantry's Pending donations. Every other pantry's sets, and every other status's set, are unchanged. |
| Workflow.CreateRaisesCounts | index.js:167-170 | After a create, the destination pantry's NGO Total and Pending counts and its current donations each rise by one. Its Completed count and every other pantry's counts are unchanged. |
| Workflow.CreatedAppearsInPantryView | index.js:167-170 | If the restaurant and pantry exist, the new donation joins and its Pending row appears in the pantry manager's view. |
| Workflow.StatusUpdateTouchesOneField | index.js:220-223 | The update stores the status verbatim in that one row. The row's other fields, every other row and every other table are unchanged. Repeating the update changes nothing more. |
| Workflow.StatusUpdateSets | index.js:220-223 | After an update, every pantry keeps the same donations. The updated id leaves the set of its old status and enters the set of its new one. |
| Workflow.SettlingPendingLowersCounts | index.js:220-223 | Giving a Pending donation another status lowers its pantry's NGO Pending count and current donations by one. Its Total is unchanged. |
| Workflow.StatusUpdateKeepsJoins | index.js:220-223 | An update changes no join. In the pantry manager's view, the updated donation's row differs only in its status. |
| Ordering.SortBy | index.js:69-71 | The result is a permutation (same multiset) of the input and is ordered by (group ascending, date descending). |
| Ordering.SortByIsStable | index.js:69-71 | Sorting keeps the relative order of rows whose ORDER BY keys tie: for every key, the rows with that key appear in the same order as in the scan. |
| Ordering.PermutationKeepsDistinct | index.js:69-71 | A reordering of rows without repeats has no repeats. |
| Views.JoinedDonations | index.js:65-68 | These are the ids of donations whose food item, restaurant and pantry exist, in ascending order. Every such id is listed. |
| Views.PantryDonations | index.js:61-72 | The result is a permutation of the joined rows. Every Pending row precedes every other row. Within each group, dates do not increase. |
| Views.PantryDonationsExactlyOnce | index.js:62-68 | Every row is the row of a joined donation. Every joined donation's row is present. No donation id occurs twice. |
| Views.LogisticsOverview | index.js:117-132 | The result is a permutation of the joined rows, with dates non-increasing. |
| Views.LogisticsOverviewCoversJoin | index.js:127-130 | There are as many rows as joined donations. Each row is the row of some joined donation, and every joined donation's row is present. |
| Views.ChefRestaurants | index.js:38-46 | The result lists exactly the restaurants whose owner has role Head Chef, once each, ascending by ID. Each row carries the count of donations of that restaurant's food items. |
| Views.NgoPantries | index.js:88-101 | There is one row per pantry, in PantryID order. |
| Views.GroupCounts | index.js:95-99 | Counting a pantry's LEFT JOIN group gives the number of donations the ON clause accepts for it. Restricted to one status, it gives the number of those with that status. |
| Views.NgoCounts | index.js:95-100 | Total_Donations is the number of donations with that Pantry_ID. Pending_Donations and Completed_Donations are the numbers of those with that status. Pending + Completed ≤ Total. |
| Views.PantryWithoutDonationsShowsZeros | index.js:95-100 | A pantry that no donation names still has a row, with all three counts zero. |
| Views.AvailablePantries | index.js:244-253 | There is one row per pantry, in PantryID order. |
| Views.CurrentDonationsArePending | index.js:249-252 | Current_Donations is the number of Pending donations addressed to the pantry. |
| Views.OccupancyMatchesNgoPending | index.js:249-252 | The pantries view and the NGO view list pantries in the same order. Each pantry's Current_Donations equals its NGO Pending_Donations. |
| Login.Lower | index.js:281-282 | `toLowerCase` preserves length and maps each character A-Z to a-z, leaving every other character unchanged. |
| Login.Find | index.js:280-283 | The result is some account exactly when an account matches name and role ignoring case. That account matches and no earlier account does. |
| Login.Authenticate | index.js:280-301 | A success answers with the first fixed account that matches name and role ignoring case. A failure answers 401 "Invalid credentials", and then no account matches. |
| Login.AuthenticateSpec | index.js:280-301 | Login succeeds exactly when some fixed account matches. It answers with the stored account (its own id, name and role). Otherwise it answers 401 "Invalid credentials". |
| Login.AuthenticateIgnoresCase | index.js:280-283 | Lower-casing the name and role never changes the answer. |
| Login.EachAccountLogsIn | index.js:272-294 | Each of the four accounts logs in with its own name and role. |
| Login.RoleMustBelongToName | index.js:272-300 | One account's name with another account's role is refused with 401. |

## Left out

- Express setup, CORS and JSON middleware, `app.listen`, `/api/test`, the hard-coded connection settings and `db.connect` (index.js:1-34, 304-307): I/O plumbing.
- `console` logging, and the `details` field of 500 answers (the driver's error text): the answers keep only the HTTP status and the `error` message.
- The 500 answers of the five read endpoints when their query fails: the views are modelled as queries that succeed.
- The single shared connection and the interleaving of concurrent requests at each `await`: a concurrency concern. Each handler runs atomically in the model.
- A failing ROLLBACK inside the create handler's `catch` (an unhandled rejection): rollback always succeeds.
- The tables carry no referential-integrity invariant. A create may therefore also make an older donation join whose food item id dangled until the new item took that id; foreign keys, if the schema declares them, would have refused such a row.
- Foreign-key, NOT NULL and type checks of MySQL are not modelled one by one. Any insert, commit or read-back may fail through `CreateFaults`, whatever the reason.
- Workflow.Database.InsertFoodItem: an INSERT that fails is taken to spend no AUTO_INCREMENT value, although InnoDB usually does spend one, so the model lacks some of the gaps real ids can have. An INSERT that succeeded keeps its value through ROLLBACK, as in InnoDB. Lock modes and `auto_increment_increment` are not modelled.
- Workflow.Database.UpdateStatus: `affectedRows` is taken as the number of rows the WHERE clause matched (the driver's found-rows default). Setting a status to the value it already has therefore still answers success.
- `DATE_FORMAT` and `NOW()`: dates are integers ordered as timestamps, and NOW() is the parameter `now`. The rendered `'%Y-%m-%d'` strings, and the ties they create at day granularity, are not modelled.
- The order of rows where the SQL leaves it open is not modelled. A scan without ORDER BY (the chef, NGO and pantries views) is taken to visit rows in primary-key order. Rows whose ORDER BY keys tie keep that order (`Ordering.SortByIsStable`); MySQL itself leaves their order open.
- Collations: `d.Status = 'Pending'`, `= 'Completed'` and `u.Role = 'Head Chef'` are exact string equality. MySQL's default case-insensitive collation would also accept, say, `'pending'`.
- Login.Lower: only the letters A-Z are lower-cased. Unicode case mapping of other characters is not modelled.
- Request field types: each request field has one type in the model. `foodItem`, `type` (`itemType` in the model) and `status` are strings; `quantity`, `restaurantId`, `pantryId` and `donationId` are integers. A value of any other type is not modelled. This includes `""` in a number field and `0` in a text field, which the source rejects with 400, and truthy values of the wrong type such as `restaurantId: "x"`. Missing or null counts as falsy, as do `""` in a text field and `0` in a number field.
- Login.AuthenticateSpec: a missing or null `username` makes `username.toLowerCase()` throw on the first account (index.js:281). A missing `role` throws only once the username matches one of the four names (index.js:282, after `&&`); otherwise the source answers 401. The model takes both as strings, so neither path is modelled.
