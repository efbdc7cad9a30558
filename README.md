# Ogre List backend — a Dafny model

Ogre List is a household inventory. A user owns houses. A house holds rooms, a
room holds appliances, and an appliance holds parts. Any of these rows may carry
a reminder date. This project models the backend's core in Dafny and proves what
it promises:

- **The four entity tables** (`houses`, `rooms`, `appliances`, `parts`) and the
  `users` table. They form one database object, `Store.Database`, whose create,
  rename and delete methods change it in place. Delete follows the
  `ON DELETE CASCADE` foreign keys. The lookups (`findById`, find-by-parent,
  `findByUsername`) are pure functions in `Tables`.
- **The `updateUser` query builder.** It appends to a query string, pushes bind
  values and counts placeholders (`UserQuery.BuildUpdate`). The statement
  executor accepts only well-formed `UPDATE users SET …` text.
- **The ownership-chain decision ladder** shared by the house, room, appliance
  and part controllers (`Guard.Check`), and every handler built on it
  (`EntityController`, `HouseController`). Responses are a status code plus a
  body.
- **The dashboard tree** of houses → rooms → appliances → parts for one user
  (`DashboardController`).
- **The reminder mail**: template substitution, then a send whose failure is
  swallowed (`Email`).
- **One run of the reminder cron job** (`Scheduler.Tick`). It works over the
  database object with an explicit `now`, an abstract mail transport and an
  optional injected driver exception. `Scheduler.TickSpec` is its functional
  specification. `ReminderRuns` proves what a run does:
  - which rows lose their reminder and which mails go out, in which order;
  - a second run at the same time sends nothing;
  - the outcome does not depend on whether the transport delivered;
  - an exception only cuts the run short.

  `FaultRuns` states where a run that meets an exception stops and what it
  leaves behind.

Two points of the run's behaviour, as the code is written:

- Errors are not isolated per row. One `try` wraps the whole run, so the first
  exception ends it.
- A reminder is cleared even when the mail was not delivered, because the
  sender swallows transport failures.

Module layout: `Wrappers` (Option/Result), `Js` (truthiness), `Tables` (rows,
lookups, updates), `Cascade` (delete), `Ownership` (chain to the owner),
`Store` (the database object), `UserQuery`, `Email`, `Http`, `Guard`,
`EntityController`, `HouseController`, `DashboardController`, `Scheduler`,
`ReminderRuns`, `FaultRuns`.

The source mixes revisions. The model files keep only id, name and parent, and
their `update*` functions rename only. The scheduler and the controllers already
use a reminder date, the other columns and a full-row update. So every row
carries a nullable integer `reminder` and opaque `details` (the other columns):

- `Store.Database.Rename` is the model files' rename.
- `Store.Database.Update` with `Tables.SetRow` is the scheduler's full-row write.
- The due query `findAllWithPastReminderDate` is not defined in the model files
  of this revision. It is taken to return the rows whose reminder is present
  and at most `now`, in table order (`Tables.Due`).

## Model

| member | source | states |
|---|---|---|
| Tables.FindById | app/backend/src/models/house.ts:53-65 | findById gives null exactly when no row has the id, else a row of the table with that id (the same code in room.ts, appliance.ts, part.ts) |
| Tables.FindByIdUnique | app/backend/src/models/house.ts:56-61 | under the primary key, findById of a stored row's id returns that very row |
| Tables.FindByParent | app/backend/src/models/house.ts:43-51 | findByUserId returns exactly the rows whose parent column equals the argument; findByHouseId, findByRoomId and findByApplianceId (room.ts, appliance.ts, part.ts:43-51) are the same query on their tables |
| Tables.FindUser | app/backend/src/models/user.ts:59-71 | user findById gives null exactly when no user has the id, else that user |
| Tables.FindByUsername | app/backend/src/models/user.ts:46-58 | findByUsername gives null exactly when no user has the name, else a user with that name |
| Tables.Due | app/backend/src/scheduler.ts:16 | the due query returns exactly the rows whose reminder is set and not after `now` |
| Tables.Select | app/backend/src/models/house.ts:84 | a WHERE filter keeps exactly the rows that match, never more rows than it was given |
| Tables.SelectAppend | app/backend/src/models/house.ts:84 | filtering distributes over concatenation of tables |
| Tables.SelectAll | app/backend/src/models/house.ts:84 | a filter every row matches changes nothing |
| Tables.WithTable | app/backend/src/models/house.ts:21 | replacing one table leaves the users and the other three tables as they were |
| Tables.Up | app/backend/src/models/room.ts:21 | the parent table of rooms, appliances and parts sits one level nearer the user |
| Tables.Down | app/backend/src/models/appliance.ts:21 | every table below houses is the child of the table above it |
| Tables.Apply | app/backend/src/models/house.ts:70-75 | an UPDATE keeps the row's id and parent and sets the given name; a rename keeps the reminder and the other columns, the full-row write sets them to the given values |
| Tables.UpdateRows | app/backend/src/models/house.ts:70-72 | `UPDATE … WHERE id = $n` rewrites exactly the rows with that id and keeps the table's length and order |
| Tables.UpdateKeepsLinks | app/backend/src/models/house.ts:71 | an UPDATE never changes an id or a parent column |
| Tables.LinksIds | app/backend/src/models/house.ts:19 | tables with the same ids and parents have the same id set and the same primary-key status |
| Tables.SameLinksKeeps | app/backend/src/models/house.ts:21 | databases with the same ids and parents satisfy the foreign keys and primary keys alike |
| Tables.FindByIdLinks | app/backend/src/models/house.ts:53-61 | findById finds a row, and its parent, in one table exactly when it does in the other, if both have the same ids and parents |
| Tables.FindAfterUpdate | app/backend/src/models/house.ts:70-75 | after the UPDATE, findById returns the old row with the change applied, which is what `RETURNING` gives back |
| Cascade.DeleteRow | app/backend/src/models/house.ts:81-88 | deleteHouse removes exactly the rows with that id from its table, leaves the tables above it and the users untouched, and cascades below (pinned level by level in `Cascade.DeleteKeepsChildren`) |
| Cascade.Cascade | app/backend/src/models/room.ts:21 | `ON DELETE CASCADE` removes exactly the rows whose parent was deleted, level by level downwards |
| Cascade.CascadeKeepsChildren | app/backend/src/models/appliance.ts:21 | at every level below the cascade's start, a row remains exactly when it was there and its parent remains |
| Cascade.DeleteKeepsChildren | app/backend/src/models/house.ts:81-88 | after a delete, at every level below the deleted row's table, a row remains exactly when it was there and its parent remains |
| Cascade.CascadeKeepsLinked | app/backend/src/models/appliance.ts:21 | after the cascade every remaining row still has its parent row |
| Cascade.DeleteKeepsLinked | app/backend/src/models/house.ts:21 | a delete leaves every foreign key satisfied |
| Cascade.CascadeNothing | app/backend/src/models/part.ts:21 | a cascade from no deleted parent changes nothing |
| Cascade.DeleteAbsentIsNoop | app/backend/src/models/house.ts:81-85 | deleting an absent id changes nothing (the same for room.ts, appliance.ts, part.ts) |
| Cascade.DeleteRemovesOnlyTarget | app/backend/src/models/house.ts:84 | in its own table the delete removes the rows with the id and keeps every other row |
| Cascade.RoomGoesWithHouse | app/backend/src/models/room.ts:21 | after deleteHouse no room of that house remains, and every other room is kept |
| Cascade.ApplianceGoesWithRoom | app/backend/src/models/appliance.ts:21 | after deleteRoom no appliance of that room remains, and every other appliance is kept |
| Cascade.PartGoesWithAppliance | app/backend/src/models/part.ts:21 | after deleteAppliance no part of that appliance remains, and every other part is kept |
| Cascade.PartDeleteTouchesOnlyParts | app/backend/src/models/part.ts:81-85 | deletePart removes only that part and changes no other table |
| Cascade.SelectUnique | app/backend/src/models/house.ts:19 | filtering a table keeps its primary key unique |
| Cascade.CascadeShrinks | app/backend/src/models/room.ts:21 | a cascade only removes rows and keeps every primary key unique |
| Cascade.DeleteShrinks | app/backend/src/models/house.ts:81-85 | a delete only removes rows and keeps every primary key unique |
| Ownership.OwnerId | app/backend/src/controllers/partController.ts:62-80 | walking part → appliance → room → house either reaches the owning user id or names the first table whose findById came back null, which is the row's own table exactly when its id is absent |
| Ownership.OwnerIdReaches | app/backend/src/controllers/applianceController.ts:84-97 | under the primary keys the walk succeeds with `u` exactly when a chain of stored rows leads from the row to a house owned by `u` |
| Ownership.LinkedChain | app/backend/src/models/room.ts:21 | when every foreign key holds, the walk can only fail at the row itself, and a successful walk ends at an existing user |
| Ownership.OwnerIdSameLinks | app/backend/src/scheduler.ts:28-30 | the walk depends only on ids and parents, so a write that keeps them keeps every owner |
| Http.NotFound | app/backend/src/controllers/roomController.ts:73-81 | a missing link answers 404 with the message naming that table |
| Http.MissingFields | app/backend/src/controllers/roomController.ts:18-20 | a create without name or parent id answers 400 |
| Guard.Check | app/backend/src/controllers/applianceController.ts:84-100 | the ladder lets the handler through exactly when the chain reaches the caller; an unparsable id gives 500, an absent row gives 404 for its own table, a missing link further up gives 404 naming that link's table, and a chain reaching another user gives 403 (for houses, houseController.ts:80-88: 404 for a missing house, then 403 for another owner) |
| Guard.CheckReaches | app/backend/src/controllers/partController.ts:62-84 | under the primary keys the ladder passes exactly when a chain of stored rows leads to a house the caller owns |
| Guard.CheckLinked | app/backend/src/controllers/roomController.ts:103-114 | when every foreign key holds, the ladder's only outcomes are 404 for the row itself, 403, or through; a 403 means a real chain to another user exists |
| Guard.CheckSameLinks | app/backend/src/controllers/partController.ts:139-161 | the ladder's answer depends only on ids and parents |
| EntityController.UpdateEntity | app/backend/src/controllers/applianceController.ts:74-108 | updateAppliance, and alike updateHouse, updateRoom and updatePart: 401 without a caller, then the ladder's 404/403 with the store unchanged; a missing name is a NOT NULL failure (500); otherwise only that row is renamed and returned |
| EntityController.DeleteEntity | app/backend/src/controllers/partController.ts:130-169 | deletePart, and alike deleteHouse, deleteRoom and deleteAppliance: 401, then the ladder from the row up with the store unchanged, otherwise 204 and the delete with its cascade |
| EntityController.CreateChild | app/backend/src/controllers/partController.ts:12-50 | createPart, and alike createRoom and createAppliance: 401, then 400 before any lookup, then the ladder on the parent; on success 201 with a row under a fresh id appended to the table; parts keep the body's reminder and other columns, rooms and appliances get none |
| EntityController.GetChildren | app/backend/src/controllers/partController.ts:94-128 | getPartsByApplianceId, and alike getRoomsByHouseId and getAppliancesByRoomId: 401 without a caller, then the ladder's own answer (404 naming the first missing link, 403 for another owner); 200 exactly when the caller owns the parent's chain, and then exactly the parent's children |
| HouseController.GetHouseById | app/backend/src/controllers/houseController.ts:11-47 | 401, then 400 for an unparsable id, 404 exactly when no house has the id, 403 exactly when the house belongs to another user, 200 exactly when the caller owns it, and then that house |
| HouseController.CreateHouse | app/backend/src/controllers/houseController.ts:52-68 | 401, then 400 without a name, else a house under a fresh id owned by the caller, answered 201; 500 when the caller's user row is gone |
| HouseController.GetHousesByUserId | app/backend/src/controllers/houseController.ts:98-110 | 401, else 200 with exactly the caller's houses |
| DashboardController.GetDashboardData | app/backend/src/controllers/dashboardController.ts:9-42 | 401 without a caller, else 200 with exactly the caller's tree (`Dashboard`); an empty list when the caller owns no house |
| DashboardController.Dashboard | app/backend/src/controllers/dashboardController.ts:17-35 | one node per house of the caller, in findByUserId order, each carrying its rooms' nodes |
| DashboardController.RoomNodes | app/backend/src/controllers/dashboardController.ts:25-33 | a node for every room of the house and for nothing else, each carrying its appliances |
| DashboardController.ApplianceNodes | app/backend/src/controllers/dashboardController.ts:27-31 | a node for every appliance of the room and for nothing else, each carrying exactly its parts |
| DashboardController.OnBoardChained | app/backend/src/controllers/dashboardController.ts:24-34 | a part on the board hangs from an appliance, a room and a house of the caller |
| DashboardController.ChainedOnBoard | app/backend/src/controllers/dashboardController.ts:24-34 | every part hanging from a house of the caller is on the board |
| DashboardController.ChainOwner | app/backend/src/controllers/partController.ts:144-161 | under the primary keys such a chain is the one the part handlers walk, and it ends at the caller |
| DashboardController.OwnerChained | app/backend/src/controllers/partController.ts:144-161 | a part the part handlers attribute to a user hangs from a chain to that user |
| DashboardController.OnBoardOwned | app/backend/src/controllers/dashboardController.ts:17-35 | a part is on a user's board exactly when the part handlers would let that user act on it: nothing of other users' houses is shown |
| Email.IndexOf | app/backend/src/utils/email.ts:30 | the search finds the first occurrence of the pattern, or reports that there is none |
| Email.ReplaceFirst | app/backend/src/utils/email.ts:30 | a text without the placeholder is returned unchanged |
| Email.FirstAfter | app/backend/src/utils/email.ts:30 | when the prefix cannot start the pattern, the first occurrence is right after the prefix |
| Email.ReplaceAfter | app/backend/src/utils/email.ts:30 | replacing the first occurrence changes only it |
| Email.HeadHasNoBrace | app/backend/src/utils/email.ts:14-21 | no '{' precedes the placeholder in the template |
| Email.RenderFills | app/backend/src/utils/email.ts:14-30 | the body is the fixed template with the item in place of the one placeholder and nothing else changed |
| Email.SendReminderEmail | app/backend/src/utils/email.ts:28-44 | the mail comes from the fixed sender, goes to the given address with the subject unchanged and the rendered body, and the call returns whether or not the transport accepted it |
| UserQuery.Decimal | app/backend/src/models/user.ts:79 | a placeholder number is written with at least one digit |
| UserQuery.Assignments | app/backend/src/models/user.ts:79-94 | username, password, email are assigned in that order, only when truthy, the password as its hash; none exactly when no field is given |
| UserQuery.AppendedIsSetList | app/backend/src/models/user.ts:79-95 | the appended assignments are the comma-separated list followed by one trailing ", " |
| UserQuery.AppendedStep | app/backend/src/models/user.ts:80-82 | one more assignment appends `column = $n, ` with the next placeholder number |
| UserQuery.Bound | app/backend/src/models/user.ts:81 | one bind value per assignment |
| UserQuery.BuiltStep | app/backend/src/models/user.ts:79-94 | each push keeps the query, values and counter in step: k assignments use $1..$k and the counter is k+1 |
| UserQuery.Trimmed | app/backend/src/models/user.ts:95 | `slice(0, -2)` removes the trailing ", ", or with no field the "T " of "SET " |
| UserQuery.Finished | app/backend/src/models/user.ts:95-96 | the WHERE clause binds the id to $(k+1) |
| UserQuery.PushIf | app/backend/src/models/user.ts:79-94 | one `if` of the builder: a truthy field adds its assignment, anything else leaves the statement as it was |
| UserQuery.Close | app/backend/src/models/user.ts:95-97 | the trim and WHERE clause finish the statement text, and the id is bound last |
| UserQuery.BuildUpdate | app/backend/src/models/user.ts:73-97 | the statement is the list of given assignments with placeholders $1..$k and `WHERE id = $(k+1)`, and the values are the k field values then the id |
| UserQuery.EmptyUpdateMalformed | app/backend/src/models/user.ts:76-96 | with no field the statement is not a well-formed `UPDATE users SET` |
| UserQuery.UpdateTextWellFormed | app/backend/src/models/user.ts:76-96 | the statement is well formed exactly when at least one field is given |
| Store.ReplaceUser | app/backend/src/models/user.ts:96-100 | the UPDATE replaces the row with that id and keeps every other user in place |
| Store.AssignedFields | app/backend/src/models/user.ts:79-94 | applying the assignments sets exactly the given fields, the password to its hash |
| Store.AssignedAppend | app/backend/src/models/user.ts:79-94 | the assignments take effect one after another |
| Store.AppendKeepsLinked | app/backend/src/models/house.ts:21 | inserting a row with a new id under an existing parent keeps every foreign key |
| Store.InsertKeeps | app/backend/src/models/house.ts:19-21 | such an insert keeps the primary keys, foreign keys and the SERIAL counters ahead of every id |
| Store.BumpKeeps | app/backend/src/models/house.ts:19 | advancing a SERIAL counter keeps the database consistent |
| Store.UpdateKeeps | app/backend/src/models/house.ts:70-72 | an UPDATE keeps the database consistent |
| Store.DeleteKeeps | app/backend/src/models/house.ts:81-85 | a delete with its cascade keeps the database consistent |
| Store.CreateUserKeeps | app/backend/src/models/user.ts:20-25 | a new user with a fresh id and an unused username and email keeps the database consistent |
| Store.UpdateUserKeeps | app/backend/src/models/user.ts:20-25 | an updated user without a clash keeps the database consistent |
| Store.Database.constructor | app/backend/src/models/house.ts:14-27 | the database starts with empty tables and valid counters |
| Store.Database.NextVal | app/backend/src/models/house.ts:19 | SERIAL hands out the counter, which is above every id in the table, and advances it; nothing else changes |
| Store.Database.Insert | app/backend/src/models/house.ts:32-35 | the row is appended to its table, nothing else changes, and consistency is kept |
| Store.Database.Create | app/backend/src/models/house.ts:29-41 | createHouse (and createRoom, createAppliance, createPart): a row with a fresh id, the name, the parent and the given reminder and other columns is appended and returned; a parent that does not exist is a foreign-key failure with the tables unchanged; the counter advances either way |
| Store.Database.Update | app/backend/src/scheduler.ts:21 | the full-row write: succeeds exactly when the id exists, and then rewrites that row and returns it |
| Store.Database.Rename | app/backend/src/models/house.ts:67-79 | updateHouse (and updateRoom, updateAppliance, updatePart) renames only; an absent id fails, because there is no returned row to destructure; a missing name violates NOT NULL |
| Store.Database.Delete | app/backend/src/models/house.ts:81-88 | deleteHouse (and the other three) is the cascading delete, and the counters are unchanged |
| Store.Database.CreateUser | app/backend/src/models/user.ts:32-44 | a user with a fresh id is appended and id, username and email are returned, never the password; a taken username or email is a unique violation |
| Store.Database.UpdateUser | app/backend/src/models/user.ts:73-108 | with no field, the malformed statement fails; an unknown id gives null; otherwise the user gets exactly the given fields (password hashed) and is returned, and the call fails exactly when that would clash with another user's name or email; the only failures are the syntax error and the unique violation |
| Scheduler.Recipient | app/backend/src/scheduler.ts:18-19 | the user a due row's reminder goes to, found by walking its chain, is always a stored user |
| Scheduler.Visit | app/backend/src/scheduler.ts:17-22 | one loop iteration over the database is exactly the specified step: lookups, one send, then the clearing write, or a stop at an exception |
| Scheduler.RowsAdvance | app/backend/src/scheduler.ts:17 | the loop's remaining work after one more row is the rest of the specified sweep |
| Scheduler.VisitAll | app/backend/src/scheduler.ts:27-36 | the `for` loop over one kind's due rows equals the specified loop |
| Scheduler.SweepKind | app/backend/src/scheduler.ts:39-52 | the due query then the loop, as specified |
| Scheduler.Tick | app/backend/src/scheduler.ts:11-74 | one cron run over the database gives exactly the specified final tables, mail log and failure flag |
| ReminderRuns.ClearedStep | app/backend/src/scheduler.ts:21 | clearing one more row under the primary key adds its id to the cleared set |
| ReminderRuns.StepClean | app/backend/src/scheduler.ts:17-22 | without exceptions a due row with a recipient is cleared and mailed; one without is skipped |
| ReminderRuns.RowsClean | app/backend/src/scheduler.ts:17-23 | without exceptions, a kind's loop clears the reminder of each due row with a recipient and mails those rows in order |
| ReminderRuns.SweepClean | app/backend/src/scheduler.ts:26-36 | without exceptions, a kind's sweep clears and mails exactly its notified rows |
| ReminderRuns.TickClean | app/backend/src/scheduler.ts:11-74 | without exceptions a run ends with the swept tables and the expected mails in the order houses, rooms, appliances, parts, all with the same `now` |
| ReminderRuns.SweptTable | app/backend/src/scheduler.ts:21 | after a run each table is the old one with exactly the notified rows' reminders cleared |
| ReminderRuns.SweptRow | app/backend/src/scheduler.ts:19-22 | a row loses its reminder exactly when it was due and its chain reaches a user; every other field stays as read |
| ReminderRuns.SweptLinks | app/backend/src/scheduler.ts:33 | a run changes no id and no parent |
| ReminderRuns.SweptQuiet | app/backend/src/scheduler.ts:40-49 | after a run, a row still due has no recipient |
| ReminderRuns.NoNotices | app/backend/src/scheduler.ts:41-44 | due rows without a recipient produce no mail |
| ReminderRuns.SweptKindQuiet | app/backend/src/scheduler.ts:56-67 | after a run no row of any kind is to be notified again at the same time |
| ReminderRuns.SweptFixed | app/backend/src/scheduler.ts:21 | sweeping the swept tables again changes nothing |
| ReminderRuns.SweptSilent | app/backend/src/scheduler.ts:20 | the swept tables produce no mail at the same time |
| ReminderRuns.TickAgainQuiet | app/backend/src/scheduler.ts:11-74 | a second run at the same time sends nothing and changes nothing |
| ReminderRuns.StepTransport | app/backend/src/utils/email.ts:39-44 | one row's step does the same writes and mails whatever the transport answers |
| ReminderRuns.RowsTransport | app/backend/src/scheduler.ts:17-23 | a kind's loop does not depend on delivery |
| ReminderRuns.SweepTransport | app/backend/src/scheduler.ts:26-36 | a kind's sweep does not depend on delivery |
| ReminderRuns.TickTransport | app/backend/src/scheduler.ts:20-21 | a run's tables, mails and outcome do not depend on delivery: an undelivered reminder is still cleared |
| ReminderRuns.StepGrows | app/backend/src/scheduler.ts:20 | a step only appends to the mail log |
| ReminderRuns.RowsGrows | app/backend/src/scheduler.ts:17-23 | a loop only appends to the mail log |
| ReminderRuns.SweepGrows | app/backend/src/scheduler.ts:26-36 | a sweep only appends to the mail log |
| ReminderRuns.RowsFault | app/backend/src/scheduler.ts:72-74 | an exception in a loop leaves a prefix of the mails of the run without it, and otherwise the same state |
| ReminderRuns.SweepFault | app/backend/src/scheduler.ts:72-74 | the same for a kind's sweep |
| ReminderRuns.TickFault | app/backend/src/scheduler.ts:14-74 | an exception anywhere only cuts the run short: its mails are a prefix of the undisturbed run's, and if nothing threw the outcome is identical |
| ReminderRuns.TickFaultSent | app/backend/src/scheduler.ts:14-74 | the mails of an interrupted run are a prefix of the expected mails |
| ReminderRuns.RecipientSameLinks | app/backend/src/scheduler.ts:28-30 | the recipient depends only on ids and parents, so clearing reminders changes no recipient |
| FaultRuns.RowsSplit | app/backend/src/scheduler.ts:17-23 | the loop over the first n due rows ends where the loop over all of them reaches row n |
| FaultRuns.RowsQuiet | app/backend/src/scheduler.ts:17-23 | an exception aimed at none of the remaining rows leaves the loop as without exception |
| FaultRuns.RowsBeforeFault | app/backend/src/scheduler.ts:17-23 | the rows before the faulting one are cleared and mailed as in a run without exception |
| FaultRuns.RowsAtLookup | app/backend/src/scheduler.ts:18 | a lookup exception at a row fails the run with that row untouched and no mail |
| FaultRuns.RowsAtWrite | app/backend/src/scheduler.ts:20-21 | a write exception at a row with a recipient fails the run after its mail, with its reminder still set |
| FaultRuns.RowsAtMissed | app/backend/src/scheduler.ts:19-22 | a write exception at a row without recipient is never reached, since that row gets no write |
| FaultRuns.RowsFaultAt | app/backend/src/scheduler.ts:17-23 | the closed form of a kind's loop with an exception at due row i |
| FaultRuns.SweepOther | app/backend/src/scheduler.ts:26-36 | the sweep of a kind the exception is not aimed at runs as without exception |
| FaultRuns.SweepFaultAt | app/backend/src/scheduler.ts:26-36 | the closed form of the faulting kind's sweep: a due-query exception fails at once, a reached row exception as in the loop, anything else changes nothing |
| FaultRuns.PrefixClean | app/backend/src/scheduler.ts:15-52 | the kinds swept before a given kind leave their swept tables and their mails in order |
| FaultRuns.TickFaultQuery | app/backend/src/scheduler.ts:14-74 | an exception in a kind's due query ends the run after the earlier kinds, with nothing of that kind or later sent or cleared |
| FaultRuns.TickFaultReached | app/backend/src/scheduler.ts:14-74 | an exception at a reached due row ends the run with the earlier kinds swept, the rows before it handled, for a write exception its mail sent, and nothing later |
| FaultRuns.TickFaultMissed | app/backend/src/scheduler.ts:14-74 | an exception the run never reaches leaves the run as without exception |
| FaultRuns.TickFaultAt | app/backend/src/scheduler.ts:14-74 | the closed form of a run with an exception: the three cases above in one statement |
| FaultRuns.TickFaultStops | app/backend/src/scheduler.ts:14-74 | a reached exception fails the run, leaves the later kinds untouched and the faulting and every later due row with its reminder, and for a write exception leaves the faulting row's mail last in the log |

## Left out

- The cron timer (`cron.schedule` every five minutes) is timing and concurrency. One run is `Scheduler.Tick` with an explicit `now`.
- Dates are integer timestamps. Date construction and ISO formatting are not modelled.
- Database I/O is left out: connection pooling, SQL text sent to the driver, and the `createTable` DDL beyond primary keys, NOT NULL, UNIQUE and the `ON DELETE CASCADE` foreign keys. Tables are in-memory sequences in insertion order.
- `findAllWithPastReminderDate` and the six-argument `update*` functions are called by the scheduler but are not defined in the model files of this revision. The due query is taken to be `Tables.Due`, in table order. The full-row write is `Store.Database.Update`.
- `Scheduler.Tick`: driver exceptions are an injected `Fault`. It names the kind, the due row's index and the phase (due query, chain lookups, write). A write to a row that is gone counts as an exception, because the destructuring of the missing returned row throws. Other exceptions inside the `try` are not modelled separately.
- The nodemailer transport and its credentials are a foreign call. It is a parameter `transport: Mail -> bool`, and its answer is recorded in the log. Console logging is left out.
- Email.SendReminderEmail: JavaScript's `replace` interprets `$&`, `$$` and similar sequences in the replacement text. The model substitutes the item literally, which matches the source only for items without `$`.
- bcrypt is an opaque `hash` function parameter. JWT handling, the token middleware, and the auth and profile controllers are not part of this model. The caller id the middleware sets is an `Option<int>` parameter.
- Express routing and response objects are left out. A handler's path and body values arrive already parsed: a path id that `parseInt` cannot read is `None`, and body ids are `Option<int>`. Ids that are non-numeric strings in the JSON body are not modelled. The house route names its parameter `:houseid` while `getHouseById` reads `houseId`; that mismatch is not modelled.
- `updateHouse` and `updatePart` in the controllers pass extra fields that the model files of this revision ignore. The model keeps the rename those files define.
- Parent columns are never NULL in the model (`Row.parent` is an `int`), although the DDL (for example `user_id INTEGER REFERENCES users(id)` in house.ts) allows NULL. No modelled handler inserts a NULL parent: the controllers answer 401 or 400 before any insert without one. So the scheduler's path for a NULL parent, where `findById(null)` returns no row and the row is skipped, does not arise.
- Store.Database.Create: stores the given reminder date and other columns with the new row, as the later-revision `create*` functions the controllers call do. The model files of this revision insert only the name and the parent. createHouse and createPart pass these columns from the body; createRoom and createAppliance pass none, so their rows get no reminder and no other columns.
- Concurrency between requests and the cron job is left out: every operation runs alone.
- The compiled output, the frontend and the styling configuration are not part of this model.
