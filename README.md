# wiktoriabeautyy booking core in Dafny

This project models the booking core of a beauty-salon web application. The salon
opens time slots. Customers register, wait for an administrator to activate their
account, log in and book an open slot. The administrator confirms, deletes or books
appointments by hand, manages users, and sees the schedule.

The model covers two sides.

Server side:
- the Express handlers of `server/server.js` over the four tables `users`,
  `available_slots`, `appointments` and `reviews`, with the schema's keys;
- the production variant `server/server-render.js`;
- the PostgreSQL adapters, which rewrite MySQL `?` placeholders into `$1`, `$2`, …;
- the SQL-script runner of `server/db-postgres.js`;
- the administrator seeding of `server/fix-db-adapter.js`;
- the article slug.

Client side:
- the month grid and the click rule of the calendar;
- the validators and `handleChange` of the registration, login and booking forms;
- the user list filter;
- the category buttons, filter and grouping of the price list;
- the upcoming/past split of the schedule.

Modules:
- `Booking` holds the tables as a value (`Tables`) and one function per handler.
- `Server.Database` is a class whose fields are the tables. Each handler is a method
  that reassigns them. Each method is proved to give exactly the reply and the tables
  of its `Booking` function, and to keep `Booking.Valid`, the schema's guarantees.
- `BookingInvariant`, `BookingProperties`, `BookingListings` and `BookingScenario`
  prove what the handlers promise.
- `Placeholders.Rewrite` is the left-to-right scan with a counter, proved against
  `Numbered` and against an independent cut-and-glue reading (`Splice`).
- On the client side, code that loops or mutates component state is a method or a class:
  - `Calendar.GetDaysInMonth`;
  - `Calendar.CalendarView`;
  - `Forms.FormState`;
  - `ServicesPage.GroupServices`;
  - the `ValidateForm` methods.
- Pure filters are functions with lemmas.

Three behaviours of the code are worth knowing before reading the model:
- **A cancelled appointment keeps its date and time.** The `unique_appointment` key
  covers every status (`server/server.js:126`). So a booking over a cancelled row passes
  the handler's check, fails at the insert, and is answered 500
  (`BookingProperties.CancelledRowBlocks`).
- **A storage-level conflict answers 500.** No handler maps a failed insert to 409.
- **Unknown ids are not errors.** Confirming or deleting an unknown appointment id, and
  activating or deleting an unknown user id, answers 200 and changes nothing.

## Model

| member | source | states |
|---|---|---|
| Booking.Register | server/server.js:241-283 | registration answers only 200, 400 or 409, and a refused request changes no table |
| Booking.Login | server/server.js:286-350 | a login is refused only with 401 or 403, and a session carries the email that was given |
| Booking.Book | server/server.js:373-418 | a booking answers only 200, 400, 401, 409 or 500, and anything but 200 leaves the tables unchanged |
| Booking.Gate | server/server.js:539-541 | the admin gate lets a request through exactly when a token with role `admin` is present; otherwise it answers 401 or 403 |
| Booking.OpenSlot | server/server.js:617-636 | opening a slot answers 200, 401, 403 or 500 and touches neither users, appointments nor reviews |
| Booking.CloseSlot | server/server.js:638-656 | closing a slot answers 200, 401 or 403 and touches neither users, appointments nor reviews |
| Booking.Confirm | server/server.js:696-717 | confirming answers 200, 401 or 403 and keeps the number of appointments |
| Booking.DeleteAppointment | server/server.js:719-738 | deleting answers 200, 401 or 403 and never adds an appointment |
| Booking.Activate | server/server.js:537-559 | activation answers 200, 401, 403 or 500 and keeps the number of users |
| Booking.DeleteUser | server/server.js:561-578 | deleting a user answers 200, 401 or 403 and leaves the slots alone |
| Booking.ResolveUser | server/server.js:782-798 | the tables change exactly when the email is not yet taken, that is, when a new user is inserted |
| Booking.ManualWrite | server/server.js:782-805 | the writes of a checked manual booking answer 200 or 500 |
| Booking.ManualBook | server/server.js:740-817 | a manual booking answers 200, 400, 401, 403, 409 or 500, and 400, 401, 403 and 409 leave the tables unchanged |
| Booking.FindByEmail | server/server.js:784-790 | the row found has the email, and none is found only when no row has it |
| Booking.InsertUser | server/server.js:96 | the insert fails exactly when the email is already taken |
| Booking.InsertAppointment | server/server.js:125-126 | the insert fails exactly when some appointment of any status holds the date and time, or the owner does not exist |
| Booking.SetStatus | server/server.js:704-707 | the table keeps its length and every row its place and every column but `status`; the rows with the id get the new status; a row with another id is in the result exactly when it was in the table |
| Booking.SetActive | server/server.js:546-549 | the table keeps its length and every row its place and every column but `is_active`; the rows with the id get the new flag; a row with another id is in the result exactly when it was in the table |
| Booking.Handle | server/server.js:241-817 | every writing request is answered 200, 400, 401, 403, 409 or 500 |
| Server.Database.Register | server/server.js:241-283 | the reply and the new tables are those of `Booking.Register`, and the schema's guarantees still hold |
| Server.Database.Book | server/server.js:373-418 | the reply and the new tables are those of `Booking.Book`, and the guarantees still hold |
| Server.Database.OpenSlot | server/server.js:617-636 | the reply and the new tables are those of `Booking.OpenSlot`, and the guarantees still hold |
| Server.Database.CloseSlot | server/server.js:638-656 | the reply and the new tables are those of `Booking.CloseSlot`, and the guarantees still hold |
| Server.Database.Confirm | server/server.js:696-717 | the reply and the new tables are those of `Booking.Confirm`, and the guarantees still hold |
| Server.Database.DeleteAppointment | server/server.js:719-738 | the reply and the new tables are those of `Booking.DeleteAppointment`, and the guarantees still hold |
| Server.Database.Activate | server/server.js:537-559 | the reply and the new tables are those of `Booking.Activate`, and the guarantees still hold |
| Server.Database.DeleteUser | server/server.js:561-578 | the reply and the new tables are those of `Booking.DeleteUser`, and the guarantees still hold |
| Server.Database.ManualBook | server/server.js:740-817 | the reply and the new tables are those of `Booking.ManualBook`, and the guarantees still hold |
| Server.Database.ResolveUser | server/server.js:782-798 | the new tables and the user id are those of `Booking.ResolveUser` |
| Server.Database.WriteManual | server/server.js:800-805 | the reply and the new tables are those of `Booking.ManualWrite`, and the guarantees still hold |
| Server.Database.constructor | server/server.js:88-130 | the tables start empty, with both `AUTO_INCREMENT` counters at 1 |
| BookingInvariant.UniqueEmail | server/server.js:96 | two users with the same email are the same row |
| BookingInvariant.UniqueUserId | server/server.js:92 | two users with the same id are the same row |
| BookingInvariant.UniqueAppointment | server/server.js:126 | two appointments at the same date and time are the same row, whatever their status |
| BookingInvariant.UniqueAppointmentId | server/server.js:117 | two appointments with the same id are the same row |
| BookingInvariant.InsertUserValid | server/server.js:267-270 | inserting a user with a new email keeps the guarantees |
| BookingInvariant.InsertAppointmentValid | server/server.js:402-405 | inserting an appointment for a free pair and an existing user keeps the guarantees |
| BookingInvariant.RegisterValid | server/server.js:241-283 | registration keeps the guarantees |
| BookingInvariant.BookValid | server/server.js:373-418 | booking keeps the guarantees |
| BookingInvariant.OpenSlotValid | server/server.js:626-629 | `INSERT IGNORE` of a slot keeps slots distinct |
| BookingInvariant.CloseSlotValid | server/server.js:646-649 | closing a slot keeps the guarantees |
| BookingInvariant.ConfirmValid | server/server.js:704-707 | confirming keeps the guarantees |
| BookingInvariant.DeleteAppointmentValid | server/server.js:727 | deleting an appointment keeps the guarantees |
| BookingInvariant.ActivateValid | server/server.js:546-549 | activation keeps the guarantees |
| BookingInvariant.DeleteUserValid | server/server.js:568 | deleting a user with its cascade keeps the guarantees, the foreign keys included |
| BookingInvariant.ResolveUserValid | server/server.js:782-798 | resolving the user keeps the guarantees, yields an existing user and leaves appointments alone |
| BookingInvariant.ManualWriteValid | server/server.js:782-805 | the writes of a manual booking keep the guarantees, even when the appointment insert fails |
| BookingInvariant.ManualBookValid | server/server.js:740-817 | a manual booking keeps the guarantees |
| BookingInvariant.HandleValid | server/server.js:241-817 | every writing request keeps the schema's guarantees |
| BookingProperties.BookRejections | server/server.js:378-400 | no token gives 401; a missing slot gives 400; a non-cancelled appointment at the pair gives 409; in each case no table changes |
| BookingProperties.BookSuccess | server/server.js:378-410 | a booking succeeds exactly when the slot is open, no appointment of any status holds the pair and the user exists; it then appends one pending appointment of that user, with notes defaulting to "" |
| BookingProperties.CancelledRowBlocks | server/server.js:390-417 | when only a cancelled appointment holds the pair, the booking passes the check, fails at the insert, and answers 500 with no change |
| BookingProperties.BookMissingFields | server/server.js:375-381 | an absent date or time answers 500, and a null one answers 400 |
| BookingProperties.BookTwice | server/server.js:390-400 | after a successful booking, a second booking of the same pair answers 409 |
| BookingProperties.ManualMissingField | server/server.js:749-754 | any missing field of a manual booking answers 400 with no change |
| BookingProperties.ManualChecks | server/server.js:756-780 | the slot check (400) and the conflict check (409) of a manual booking are those of the customer booking |
| BookingProperties.ManualReusesUser | server/server.js:784-790 | a known email reuses that user and adds one confirmed appointment for it, and no user is created |
| BookingProperties.ManualCreatesUser | server/server.js:791-804 | an unseen email creates one active `manual_account` user with role `user` and books a confirmed appointment for it |
| BookingProperties.ManualKeepsUserOnFailure | server/server.js:791-816 | with no transaction, a new user stays when the following appointment insert fails with 500 |
| BookingProperties.AdminGate | server/server.js:539-541 | every admin handler answers 401 without a token and 403 without the admin role, before touching the tables |
| BookingProperties.CountDistinct | server/server.js:111 | a present element of a duplicate-free table occurs exactly once |
| BookingProperties.OpenSlotIdempotent | server/server.js:626-629 | after opening, the pair has exactly one slot row, and opening it again changes nothing |
| BookingProperties.CloseSlotEffect | server/server.js:646-651 | closing removes exactly that pair, succeeds when it is absent and never touches appointments |
| BookingProperties.ActivateEffect | server/server.js:543-552 | without `is_active` the answer is 500 and nothing changes; otherwise 200, the rows with the id get the flag sent (`null` reads as inactive) and keep every other column, every other row and table is unchanged, and an unknown id changes nothing |
| BookingProperties.ConfirmEffect | server/server.js:704-712 | rows with the id become confirmed whatever their status, nothing else changes, and an unknown id changes nothing |
| BookingProperties.DeleteAppointmentEffect | server/server.js:727-732 | exactly the rows with the id are removed, and an unknown id changes nothing |
| BookingProperties.DeleteUserCascade | server/server.js:561-578 | the user and, by the `ON DELETE CASCADE` of line 125, their appointments and reviews go; every other row stays |
| BookingProperties.RegisterEffect | server/server.js:245-270 | registration needs all five fields (400) and a new email (409), and creates one inactive account with role `user` |
| BookingProperties.LoginSpec | server/server.js:290-342 | the login signs in exactly the active user with the email whose password matches; an unknown email and a wrong password both answer 401; an inactive account answers 403 |
| BookingProperties.NoHandlerCancels | server/server.js:241-817 | no handler ever marks an appointment cancelled |
| BookingListings.FreeSlotsSpec | server/server.js:444-472 | a time is listed exactly when a slot is open for it and no non-cancelled appointment holds it; the list ascends and is a subsequence of the opened times |
| BookingListings.AdminAvailableAgrees | server/server.js:588-605 | the administrator's available times equal the customer list |
| BookingListings.AdminBookedSpec | server/server.js:593-600 | the booked rows are exactly the date's non-cancelled appointments with their users, by ascending time |
| BookingListings.UserAppointmentsSpec | server/server.js:353-370 | exactly the token user's appointments, as a permutation of them, newest first |
| BookingListings.AdminAppointmentsSpec | server/server.js:658-694 | exactly the joined rows that match the optional date and name search, oldest first |
| BookingListings.AdminAppointmentsUnfiltered | server/server.js:665-687 | with no date and no search, every appointment is listed with its user |
| BookingListings.OpenTimesMembers | server/server.js:449-452 | the opened times of a date are the times of its slots |
| BookingListings.ReservedTimesMembers | server/server.js:455-461 | the reserved times are those of the date's non-cancelled appointments |
| BookingListings.OpenTimesSorted | server/server.js:450 | `ORDER BY time` gives ascending times |
| BookingListings.JoinComplete | server/server.js:594-597 | every appointment whose owner exists appears in the join |
| BookingScenario.DeleteFreesSlot | server/server.js:719-738 | after the appointment holding an open pair is deleted, a booking of the pair succeeds |
| BookingScenario.FreeSlotsSingle | server/server.js:444-472 | with one slot on a date, the free list is that time or nothing |
| BookingScenario.OneSlotWalkthrough | server/server.js:617-738 | open, book, confirm, delete: the slot is listed free, then taken and pending, then confirmed, then free again |
| Booking.OwnerRows | server/server.js:594-597 | the join rows of one appointment pair it with users of its owner's id |
| Booking.Join | server/server.js:594-597 | every join row pairs an appointment with its owner |
| Booking.UserAppointments | server/server.js:353-370 | a list comes back exactly when a token is given |
| Booking.AdminAppointments | server/server.js:658-694 | the request is refused exactly when the admin gate refuses it |
| Booking.AdminSlots | server/server.js:580-615 | the request is refused exactly when the admin gate refuses it |
| ServerRender.RenderServer.Register | server/server-render.js:88-147 | the reply and the tables are those of `Booking.Register`, and the statements sent are those of the running dialect |
| ServerRender.RenderServer.Login | server/server-render.js:150-224 | the reply is that of `Booking.Login`, with the dialect's lookup and no write |
| ServerRender.RenderServer.Start | server/server-render.js:231-410 | seeding happens only in production with a database URL: the administrator check and insert, then the test users, services and articles |
| ServerRender.RenderServer.constructor | server/server-render.js:11 | the server starts with the dialect and the tables it is given |
| ServerRender.DialectParity | server/server-render.js:99-167 | numbering the `?`s of each MySQL statement from 1 gives exactly its PostgreSQL twin, and the twin passes the adapter unchanged |
| ServerRender.InsertUsersIgnore | server/server-render.js:377-385 | the users only grow, and every row draws a `SERIAL` value |
| ServerRender.InsertArticlesIgnore | server/server-render.js:401-407 | the articles only grow |
| ServerRender.InsertUsersIgnoreValid | server/server-render.js:377-385 | the seeding insert keeps the schema's guarantees |
| ServerRender.InsertUsersIgnoreTakes | server/server-render.js:377-385 | after the insert every seeded email is taken |
| ServerRender.InsertUsersIgnoreSkips | server/server-render.js:384 | rows with taken emails add nothing |
| ServerRender.AdminStepEffect | server/server-render.js:365-374 | the administrator's email is then taken; a missing administrator is created active with role `admin`; the guarantees hold |
| ServerRender.SeedUsersEffect | server/server-render.js:364-385 | after seeding, the administrator's and every test user's email are taken, and the guarantees hold |
| ServerRender.InsertArticlesIgnoreTakes | server/server-render.js:401-407 | after the insert every seeded slug is taken |
| ServerRender.InsertArticlesIgnoreSkips | server/server-render.js:406 | when every slug is taken the articles stay as they were |
| ServerRender.RestartUsers | server/server-render.js:364-385 | seeding again leaves the users as they were |
| ServerRender.RestartArticles | server/server-render.js:401-407 | seeding again leaves the articles as they were |
| ServerRender.RestartServices | server/server-render.js:388-398 | `ON CONFLICT DO NOTHING` without a unique key: each start adds every seeded service again |
| ServerRender.EmailRowsFirst | server/server-render.js:365 | the first row of the email lookup is what `FindByEmail` finds |
| Placeholders.Rewrite | server/db-adapter.js:20-25 | the scan yields `PrepareQuery(query, |params|)` |
| Placeholders.PrepareQuery | server/db-adapter.js:21-25 | without parameters or without `?` the query is unchanged; otherwise it is numbered from 1 |
| Placeholders.NumberedPlaceholders | server/db-postgres.js:66-70 | no `?` survives the rewrite, and a query without `?` comes back unchanged |
| Placeholders.NumberedIsSplice | server/fix-db-adapter.js:19-23 | the text between placeholders is kept in order, and the i-th `?` becomes `$(k+i)` |
| Placeholders.NumberedDollars | server/db-adapter.js:24 | one `$` is produced per `?` |
| Placeholders.NumberedMarks | server/db-adapter.js:24 | a list of n marks numbered from k becomes `$k, …, $k+n-1` |
| Placeholders.NumberedPrefix | server/db-adapter.js:24 | text without `?` is copied and the counter stays |
| Placeholders.Param | server/db-adapter.js:24 | `$k` starts with `$` and has at least one character after it |
| DbAdapter.Execute | server/db-adapter.js:18-34 | the text sent is the rewritten query with the same parameters, and the pool's rows and fields or its error come back |
| DbAdapter.Query | server/db-adapter.js:36-38 | `query` sends and returns exactly what `execute` does |
| DbPostgres.Query | server/db-postgres.js:50-58 | the text goes to the pool verbatim |
| DbPostgres.Execute | server/db-postgres.js:61-80 | the text sent is the rewritten text |
| DbPostgres.InitStatementsPieces | server/db-postgres.js:24 | the statements are the non-blank pieces between semicolons, in order, with none dropped |
| DbPostgres.RunAllFailures | server/db-postgres.js:26-34 | only statements of the script are reported failed, in script order; none is when every statement succeeds |
| DbPostgres.RunStatements | server/db-postgres.js:26-34 | the loop gives the database and the failures of `RunAll` |
| DbPostgres.InitializeDatabase | server/db-postgres.js:15-47 | a failed connect rethrows, a missing script runs nothing, and otherwise every statement is tried in turn |
| FixDbAdapter.ExecuteQuery | server/fix-db-adapter.js:14-35 | the rewritten query is sent, and the raw result or the error comes back |
| FixDbAdapter.AdminInsertUnchanged | server/fix-db-adapter.js:59-62 | the administrator insert reaches the pool as written |
| FixDbAdapter.TestConnection | server/fix-db-adapter.js:38-74 | the time query comes first; when it fails or returns no row it is the only call; otherwise the count query and the administrator lookup follow in that order, and the administrator insert comes fourth exactly when the lookup succeeds with no row |
| Slug.SlugClean | server/server.js:995 | every slug has only `[a-z0-9-]`, no `--`, and no `-` at either end |
| Slug.SlugKeeps | server/server.js:995 | the slug holds exactly the letters and digits of the lower-cased title, in order |
| Slug.SlugIdempotent | server/server.js:1017 | re-slugging a slug changes nothing |
| Slug.CleanFixed | server/server.js:995 | a clean string is its own slug |
| Slug.DashedKeeps | server/server.js:995 | the first replacement keeps the letters and digits in order |
| Calendar.GetDaysInMonth | src/components/Calendar.jsx:31-52 | the grid has `getDay()` of the 1st empty cells, then the month's days 1 to n in order, and at most 37 cells |
| Calendar.DaysInMonth | src/components/Calendar.jsx:35-36 | a month has 28 to 31 days, and February has 29 exactly in a leap year |
| Calendar.JsYear | src/components/Calendar.jsx:34 | `new Date(y, …)` reads the years 0 to 99 as 1900 + y |
| Calendar.Weekday | src/components/Calendar.jsx:37 | `getDay()` is between 0 and 6 |
| Calendar.YearLength | src/components/Calendar.jsx:35 | a year has 366 days exactly when it is a leap year |
| Calendar.MonthsTile | src/components/Calendar.jsx:35-36 | the months of a year follow each other and add up to the year |
| Calendar.NextMonthWeekday | src/components/Calendar.jsx:37 | the next month's first weekday follows the last day of this month, across a year end too |
| Calendar.WeekdayAnchor | src/components/Calendar.jsx:37 | 1 January 2024 is a Monday |
| Calendar.DateKeyInjective | src/components/Calendar.jsx:57-60 | two dates with a non-negative year and the same `YYYY-MM-DD` key are the same date |
| Calendar.DateKeyParts | src/components/Calendar.jsx:57-60 | a key is the year's digits, a dash, two month digits, a dash, two day digits |
| Calendar.CalendarView.HandleDateClick | src/components/Calendar.jsx:82-96 | a selectable date (any for the administrator; otherwise listed and not past) is selected and reported; any other click changes nothing |
| Calendar.CalendarView.constructor | src/components/Calendar.jsx:6-18 | nothing is selected and no date is listed at first |
| Calendar.DisabledIffIgnored | src/components/Calendar.jsx:212 | a day's button is disabled exactly when a click on it would be ignored by `handleDateClick`; nothing is disabled for the administrator; today is not past |
| Calendar.HasSlotsAdminOnly | src/components/Calendar.jsx:66-73 | outside the administrator's view no day shows slots |
| Forms.IndexOf | src/components/RegisterForm.jsx:23 | the index found holds the first occurrence, and none is found only when the character is absent |
| Forms.EmailIff | src/components/RegisterForm.jsx:22-25 | the scanning check accepts exactly the strings that `/^[^\s@]+@[^\s@]+\.[^\s@]+$/` matches |
| Forms.Check | src/components/RegisterForm.jsx:50-54 | a field gets a message exactly when it is missing or malformed; the missing message wins; the other fields are untouched |
| Forms.FormState.HandleChange | src/components/RegisterForm.jsx:113-126 | the value is stored under its name; the same fields keep messages; a message for that field is cleared and the others are kept |
| Forms.FormState.SetErrors | src/components/RegisterForm.jsx:74 | the messages are replaced and the values kept |
| Forms.FormState.constructor | src/components/RegisterForm.jsx:6-19 | the form starts with its initial values and no messages |
| RegisterForm.ValidateForm | src/components/RegisterForm.jsx:39-76 | for each of the six fields, a message exactly when it is blank or malformed, with the exact Polish text; the form passes exactly when no message is set, that is, when all checks pass |
| RegisterForm.AcceptedPassesServer | src/components/RegisterForm.jsx:39-76 | a form that passes never meets the missing-field 400 of `POST /api/register` |
| LoginForm.ValidateForm | src/components/LoginForm.jsx:17-40 | an email message exactly when it is empty or malformed; a password message exactly when it is empty or under six UTF-16 units; passes exactly when there is no message |
| LoginForm.RegisteredCanLogIn | src/components/LoginForm.jsx:23-40 | credentials accepted by the registration form pass the login form |
| BookingModal.ValidateForm | src/components/BookingModal.jsx:15-34 | name, email and phone get a message exactly when blank (the email also when malformed); notes never do; passes exactly when there is no message |
| BookingModal.AcceptedEmailMatches | src/components/BookingModal.jsx:24 | an accepted email matches the email pattern |
| UserManagement.FilteredUsers | src/components/UserManagement.jsx:79-91 | no administrator is ever listed |
| UserManagement.FilteredUsersSpec | src/components/UserManagement.jsx:79-91 | a user is listed exactly when search and status match and it is not an administrator; the order is kept; filtering again changes nothing |
| UserManagement.StatusFilterSpec | src/components/UserManagement.jsx:85-88 | `all` with an empty search lists every non-administrator; `active` and `inactive` list exactly those with the flag |
| UserManagement.EmptySearchMatches | src/components/UserManagement.jsx:80-83 | an empty search matches everyone |
| UserManagement.UnknownStatusHidesAll | src/components/UserManagement.jsx:85-88 | any other status value lists no one |
| ServicesPage.CategoriesSpec | src/pages/ServicesPage.jsx:28 | `all` first, then each category of the services exactly once, in first-appearance order |
| ServicesPage.FilteredServicesSpec | src/pages/ServicesPage.jsx:29-31 | `all` shows every service; another button shows exactly the services of that category, in order |
| ServicesPage.GroupServices | src/pages/ServicesPage.jsx:33-39 | headings in first-appearance order; each holds exactly its category's services in order; together they hold every service once |
| ServicesPage.GroupStep | src/pages/ServicesPage.jsx:34-37 | one more service keeps the grouping |
| ServicesPage.GroupedHeadings | src/pages/ServicesPage.jsx:28-39 | the headings are the category buttons after `all`, in the same order, and every service sits under its own category |
| AppointmentSchedule.PartitionSpec | src/components/AppointmentSchedule.jsx:95-96 | with one clock reading per pass, the upcoming one no later than the past one: every appointment is in at least one list, in both exactly when its instant lies between the two readings, and both lists keep the input order; with equal readings each appointment is in exactly one list and together they hold each row as often as the input |
| AppointmentSchedule.AtNowIsUpcoming | src/components/AppointmentSchedule.jsx:73-76 | an appointment at exactly the current instant is upcoming |
| AppointmentSchedule.InvalidIsUpcoming | src/components/AppointmentSchedule.jsx:73-76 | a date and time that do not parse (Invalid Date) count as upcoming |
| AppointmentSchedule.PastGrows | src/components/AppointmentSchedule.jsx:73-76 | as time goes on an appointment moves from upcoming to past and never back |
| AppointmentSchedule.Upcoming | src/components/AppointmentSchedule.jsx:95 | every row listed is not past |
| AppointmentSchedule.Past | src/components/AppointmentSchedule.jsx:96 | every row listed is past |

## Left out

- Network and database I/O are left out: the Express plumbing, the pool, connection set-up, `process.exit` and `listen`. Queries are transitions of the `Tables` value, or calls of a `Pool` function passed as a parameter.
- bcrypt and JWT are parameters: `passwordHash` is what `bcrypt.hash` returned, `matches` is `bcrypt.compare`, and a verified token is a `Claim` of id and role.
- Dates and times on the server are abstract ordered values. Time zones, `DATE`/`TIME` formatting and `GET /api/available-dates` (`server/server.js:421-441`) are not modelled.
- Email equality is exact. MySQL's case-insensitive collation and `LIKE` collation are not modelled; the admin search is a plain substring test.
- `AUTO_INCREMENT` and `SERIAL` counters only grow. Gaps left by failed inserts are modelled only for the seeding insert.
- Booking.OpenSlot: a JSON `null` date or time is answered 500, like an absent one. The program binds it as SQL NULL; `INSERT IGNORE` then turns the NOT NULL violation into a warning, stores the column's implicit default (a zero date or midnight) and answers 200. The model has no zero date, so it does not capture that row.
- Booking.Activate: only a boolean or `null` `is_active` is modelled. The program stores `null` as SQL NULL in the nullable column; the model stores `false`, which every read in the model (the login check, the user filter) treats the same way. Other JSON values, which MySQL would convert, are not modelled.
- AppointmentSchedule.PartitionSpec: each filter pass reads the clock once. The page calls `new Date()` for every row, so within one pass the readings also grow from row to row; the model takes one reading per pass.
- Column lengths (`VARCHAR`) and value checks of MySQL are not modelled.
- Concurrency is left out. The model is sequential: two requests interleaving between check and insert are not modelled, and only the storage-level uniqueness invariant is proved.
- The user list and search handlers (`server/server.js:487-535`) are not modelled, nor are the services, articles, reviews and metamorphoses handlers beyond the article slug.
- The table creation and sample data of `server/server.js` (`createTables`) and of the development start-up (`server/db-mysql.js`) are not part of this model.
- `Slug.Slug`: lower-casing is ASCII only. JavaScript's `toLowerCase` also folds letters such as `Ł`, which the model treats as separators.
- `UserManagement.MatchesSearch`: lower-casing is ASCII only. JavaScript's `toLowerCase` also folds Polish and other non-ASCII capitals.
- A login request without `email` or `password` reaches the driver as `undefined`. This is not modelled: `Booking.Login` takes both as strings.
- Services and articles carry only the fields the model reads. Descriptions, excerpts, contents and images are left out.
- Calendar: the 30-second polling of the available dates and the fetches are not modelled. The list is a field of `CalendarView`, and "today" is a parameter.
- Form `handleSubmit` is not modelled, because it only sends the form over the network. The login form posts to `/login` while the servers route `/api/login`. The booking modal posts without a token to a handler that requires one.
- `AppointmentSchedule.IsPast`: the host's date parser and time zone are a parameter (`parse`), so the model does not say which texts parse.
- JavaScript object-key quirks are not modelled:
  - a category named after an `Object.prototype` member, such as `constructor`, would break the grouping;
  - integer-like category keys would be listed before the others.

  `ServicesPage.GroupServices` keeps the headings in first-appearance order.
- `Calendar.GetDaysInMonth`: the years 0 to 99 are read as 1900 + y, as `new Date(y, m, d)` does. Years before year 1 use the same proleptic rule, and dates are calendar days without a time zone.
