# Clinic appointments and payments — a Dafny model

This project models the bookkeeping core of a clinic web application. Patients book open
appointment slots and cancel them. Their payments are created lazily, the first time they open
their payment page. An administrator approves or rejects pending payments, lists payments by
status, deletes appointments and doctors, and reads a dashboard. Doctors keep one weekly schedule.

The database is a `Store`: finite maps from primary key to row for doctors, appointments,
payments and schedules, the set of patient ids, and the next value of the payment and schedule identity columns.
`Db.Valid` states the invariants that the entity configuration and the schema enforce:
- every row sits under its own key;
- a payment belongs to exactly one existing appointment, and an appointment has at most one payment;
- a schedule belongs to exactly one existing doctor, and a doctor has at most one schedule;
- the patient and doctor an appointment names exist;
- text columns fit their widths, counted in UTF-16 code units as `string.Length` and `nvarchar(n)` count them;
- identity columns run ahead of every key.

Each controller action is a pure function of the store and its inputs. It returns an outcome
and the new store. `DateTime.Now` is an explicit `now` (a tick count, as in .NET). The
`yyyyMMddHHmmss` rendering of the clock is a 14-digit input. `Random.Next` is an input
constrained to its range. Money is an integer count of minor units.

Modules follow the program's structure:
- `Models`: the records, enums and column widths.
- `Db`: the store, its invariants and the cascading deletes.
- `Booking`: booking and cancellation.
- `Payments`: lazy creation, the payment page, approve/reject, the admin list.
- `Listings`: the patient's upcoming, available, history and profile pages.
- `Schedules`: the schedule upsert.
- `Dashboard`: the admin dashboard.
- Support modules: `Calendar` (DateTime arithmetic), `Text` (lower-casing, decimal rendering),
  `Seqs` (filter, count, sum, sort) and `Tables` (a map's rows in key order).

## Model

| member | source | states |
|---|---|---|
| Models.TypeFromCode | Models/Appointment.cs:49-53 | Exactly the codes 1 and 2 name an appointment type, and each type's code maps back to it (Video = 1, InPerson = 2) |
| Models.StatusFromCode | Models/Appointment.cs:55-61 | Exactly the codes 1..4 name an appointment status, inverse of Pending = 1, Confirmed = 2, Completed = 3, Cancelled = 4 |
| Models.PaymentStatusFromCode | Models/Payment.cs:30-35 | Exactly the codes 1..3 name a payment status, inverse of Pending = 1, Completed = 2, Failed = 3 |
| Db.DeleteAppointment | Controllers/AdminController.cs:219-233 | Unknown id: NotFound, nothing changes. Otherwise only that row goes, together with exactly the payment that references it (cascade, Models/DBContext.cs:27-32), and the store stays valid |
| Db.DeleteDoctor | Controllers/AdminController.cs:161-174 | Unknown id: NotFound. A doctor that an appointment still names cannot be deleted (the foreign key has no delete rule). Otherwise the doctor and exactly its schedule go (cascade, Models/DBContext.cs:33-38), and validity is kept |
| Booking.Claim | Controllers/PatientController.cs:283-302 | The booked row gets the patient and Confirmed. Symptoms are replaced only by a non-empty text. An in-person slot takes its doctor's clinic when the doctor has one. A video slot gets a session number in [100000, 999999). Id, date, time, type, fee and doctor are untouched |
| Booking.BookAppointment | Controllers/PatientController.cs:255-314 | Unknown patient, unknown appointment or a slot that already has a patient: that outcome, store unchanged. A commit happens exactly when the slot is open, an in-person slot has its doctor, and the row fits its columns; it writes only the claimed row and keeps the store valid |
| Booking.NoDoubleBooking | Controllers/PatientController.cs:275-280 | After a committed booking, a second booking of the same slot by any known patient is refused as already booked and changes nothing |
| Booking.CancelAppointment | Controllers/PatientController.cs:347-368 | Unknown id: NotFound, unchanged. Otherwise only the status becomes Cancelled; the row, its payment and all other rows stay (also AdminController.cs:203-217) |
| Payments.AddPendingPayment | Controllers/PatientController.cs:142-152 | A new payment for the appointment's fee, in EGP, Pending, with no PaidAt or transaction id, under a fresh identity; the store stays valid |
| Payments.EnsurePendingPayments | Controllers/PatientController.cs:131-158 | Afterwards each non-cancelled appointment of the patient has exactly one payment. Existing payments are kept. Every new one is a fresh Pending EGP payment for an appointment that needed one. Nothing else changes and validity is kept |
| Payments.PatientPaymentsMembers | Controllers/PatientController.cs:173-178 | The payment list holds exactly the payments of the patient's appointments |
| Payments.PaymentPage | Controllers/PatientController.cs:111-195 | An unknown patient is sent to Login (None). Otherwise the lazily extended store is valid and its appointments are untouched |
| Payments.PaymentPageFigures | Controllers/PatientController.cs:173-185 | The list is ordered by PaidAt descending (null as the minimum), then id descending. The pending and completed counts and the completed and pending amounts equal the patient's rows of each status in the payments table after lazy creation |
| Payments.PaymentPageListsEveryAppointment | Controllers/PatientController.cs:131-178 | Every non-cancelled appointment of the patient appears on the payment page through its payment |
| Payments.GeneratedApprovalIdFits | Controllers/AdminController.cs:325 | A generated ADMIN_<timestamp>_<id> transaction id for a 32-bit id fits the 100-character column |
| Payments.GeneratedApprovalIdsDistinct | Controllers/AdminController.cs:325 | Generated approval ids of two different payments differ, whatever the timestamps |
| Payments.ApprovePayment | Controllers/AdminController.cs:294-338 | Unknown id: NotFound. Not Pending: NotPending. A transaction id too wide for its column: Error (the UPDATE writes only the modified columns, so no other width is checked). In all three the store is unchanged. Otherwise only that payment changes: Completed, PaidAt = now, the supplied id or ADMIN_<timestamp>_<id>. Validity is kept |
| Payments.ApproveFailsOnlyOnLongTransactionId | Controllers/AdminController.cs:317-337 | On a valid store with a 32-bit id, approval of a Pending payment fails exactly when a supplied transaction id exceeds 100 UTF-16 code units (a character outside the Basic Multilingual Plane counts twice) |
| Payments.RejectPayment | Controllers/AdminController.cs:341-383 | Unknown id: NotFound. Not Pending: NotPending. A reason over 90 UTF-16 code units (100 less the "REJECTED: " prefix): Error (only the modified columns are written). In all three the store is unchanged. Otherwise only that payment changes: Failed, PaidAt kept, transaction id "REJECTED: <reason>" or REJECTED_BY_ADMIN_<timestamp>. Validity is kept |
| Payments.RejectionIdLength | Controllers/AdminController.cs:364-371 | The stored rejection marker is 10 code units longer than the reason, or 32 code units when no reason is given |
| Payments.SettledPaymentsAreFinal | Controllers/AdminController.cs:307-311 | A Completed or Failed payment stays exactly as it is under any sequence of approvals and rejections |
| Payments.ApproveAddsToRevenue | Controllers/AdminController.cs:36-38 | Approving a payment raises the Completed-amount revenue by exactly its amount |
| Payments.RejectKeepsRevenue | Controllers/AdminController.cs:36-38 | Rejecting never changes the Completed-amount revenue |
| Payments.CreationKeepsPaidAtInStep | Controllers/PatientController.cs:142-150 | Lazy creation keeps "PaidAt is set exactly on Completed payments" |
| Payments.SettlementKeepsPaidAtInStep | Controllers/AdminController.cs:313-315 | Approval and rejection keep "PaidAt is set exactly on Completed payments" |
| Payments.StatusFilter | Controllers/AdminController.cs:245-261 | A query value selects status st exactly when its lower-cased form is st's name; any other value selects nothing (all payments) |
| Payments.PaymentsByStatus | Controllers/AdminController.cs:235-266 | The admin payment list is ordered by payment id, descending |
| Payments.PaymentsByStatusMembers | Controllers/AdminController.cs:235-266 | The admin list holds exactly the payments the status filter selects |
| Payments.StatusListLength | Controllers/AdminController.cs:247-258 | A status filter lists as many payments as the table holds with that status |
| Payments.UnfilteredListLength | Controllers/AdminController.cs:259-261 | A value that matches no status lists every payment |
| Payments.PaymentListsPartition | Controllers/AdminController.cs:245-266 | The Pending, Completed and Failed lists together are exactly as long as the unfiltered list, which is the whole table |
| Payments.StatusNameSelects | Controllers/AdminController.cs:247-256 | "pending", "completed" and "failed" select their statuses |
| Payments.AllSelectsEverything | Controllers/AdminController.cs:235 | The default query value "all" applies no filter |
| Payments.StatusFilterIgnoresCase | Controllers/AdminController.cs:245 | For every query value, the filter selects what the value's lower-cased form selects |
| Payments.StatusQueryIgnoresCase | Controllers/AdminController.cs:245 | The filter is case-insensitive: "PENDING" selects Pending |
| Listings.UpcomingAppointments | Controllers/PatientController.cs:321-344 | Unknown patient: None (Login). Otherwise the list is sorted by (date, time) ascending |
| Listings.QueryMember | Controllers/PatientController.cs:330-340 | An appointment is on a listing exactly when it is a row of the table satisfying the listing's condition (upcoming: the patient's, not cancelled, date after today or today at or after now) |
| Listings.CancelLeavesUpcoming | Controllers/PatientController.cs:350-364 | After a cancellation the appointment is on no upcoming list, and every other upcoming appointment is still listed, nothing added |
| Listings.AvailableAppointments | Controllers/PatientController.cs:228-250 | Unknown patient: None. Otherwise open Pending slots dated today or later, sorted by (date, time) |
| Listings.BookingMovesSlot | Controllers/PatientController.cs:241-243 | A committed booking takes the slot off every available list, and it shows on the booker's upcoming list while its time has not passed |
| Listings.AppointmentHistory | Controllers/PatientController.cs:196-223 | Unknown patient: None. The history is ordered by (date, time) descending, and its completed and cancelled counts add up to at most its total |
| Listings.HistoryListsLaterToday | Controllers/PatientController.cs:212 | As written, an appointment later today is both in the history and in the upcoming list |
| Listings.LaterTodayExample | Controllers/PatientController.cs:212 | A concrete store, instant and appointment that meet the previous lemma's premises |
| Listings.HistoryFigures | Controllers/PatientController.cs:206-220 | The page's total, completed and cancelled figures count the listed appointments, all of them and those of each status; the listed Completed ones are exactly the patient's completed appointments dated before now |
| Listings.CorrectedAppointmentHistory | Controllers/PatientController.cs:206-215 | The history filtered by date and time passed: None for an unknown patient, newest first |
| Listings.CorrectedHistorySplitsWithUpcoming | Controllers/PatientController.cs:206-215 | With the corrected filter, each non-cancelled appointment of the patient is on the history exactly when it is not on the upcoming list |
| Listings.ProfileInfo | Controllers/PatientController.cs:372-428 | An unknown patient is sent to Login (None) |
| Listings.ProfileNextIsEarliest | Controllers/PatientController.cs:397-405 | The next-appointment card is shown exactly when the upcoming count is positive. It shows an upcoming appointment of the patient no later in (date, time) than any other |
| Listings.ProfileCountsCoverAppointments | Controllers/PatientController.cs:385-394 | Upcoming count + past count + cancelled upcoming ones = all of the patient's appointments |
| Listings.ProfileLastPaymentIsTheirs | Controllers/PatientController.cs:407-414 | The last-payment card is shown exactly when the patient has a payment, and it is one of theirs |
| Listings.ProfileLastPaymentIsLatest | Controllers/PatientController.cs:412-414 | If any payment of the patient has a PaidAt, the card shows a paid one with the latest PaidAt |
| Listings.ProfileTotalPaidIsCompletedTotal | Controllers/PatientController.cs:416-419 | While PaidAt is set exactly on Completed payments, total paid equals the payment page's completed amount |
| Schedules.ScheduleOf | Controllers/SchedulesController.cs:18-19 | Finds a schedule of the doctor exactly when one exists |
| Schedules.Overwrite | Controllers/SchedulesController.cs:21-28 | The existing schedule takes the submitted day, hours and capacity and keeps its id and doctor |
| Schedules.SaveSchedule | Controllers/SchedulesController.cs:15-40 | An existing schedule of the doctor is updated in place under its own key: it becomes the Overwrite of that row, and nothing else changes. Otherwise an insert fails exactly when the form carries an id or an unknown doctor. With an id (explicit identity value) nothing changes; with an unknown doctor (foreign key) the schedule identity counter still advances, because SQL Server draws the value before the check and does not reuse it, and nothing else changes; a successful insert puts the row at the next identity value and advances the counter. On success the doctor has a schedule with the submitted values, other doctors' schedules are unchanged, and nothing but the schedules and their identity counter changes |
| Schedules.SaveKeepsValid | Models/DBContext.cs:33-38 | Saving keeps the store valid, including one schedule per doctor |
| Schedules.SaveLeavesOneSchedule | Controllers/SchedulesController.cs:18-36 | After a successful save the doctor has exactly one schedule |
| Schedules.SaveTwiceIsSaveOnce | Controllers/SchedulesController.cs:18-36 | Saving the same form again succeeds and leaves the store as the first save left it |
| Calendar.WeekWindow | Controllers/AdminController.cs:44-45 | The week starts on a Sunday at midnight, lasts seven days and contains now and today. None exactly where AddDays would throw |
| Dashboard.AdminDashboard | Controllers/AdminController.cs:31-50 | None exactly where the week bounds cannot be computed. Otherwise the totals are the sizes of the patient, doctor and appointment tables, the revenue is the sum of the Completed payments' amounts, and today's count is at most the week's, which is at most all appointments |
| Dashboard.DashboardFigures | Controllers/AdminController.cs:40-47 | The today figure counts exactly the appointments dated today, and the week figure exactly those dated in [startOfWeek, endOfWeek), the Sunday-midnight week around today |
| Dashboard.TodayWithinWeek | Controllers/AdminController.cs:40-47 | Every appointment dated today lies inside the week window |
| Dashboard.PaymentsShowOnlyInRevenue | Controllers/AdminController.cs:33-47 | A change confined to the payments table moves only the dashboard's revenue; the other five figures stay |
| Dashboard.ApprovalShowsOnDashboard | Controllers/AdminController.cs:36-38 | After an approval the dashboard differs only in its revenue, raised by the payment's amount |
| Text.Utf16Length | Models/Payment.cs:23-24 | The width a text takes in an nvarchar column lies between its character count and twice that |
| Text.Utf16LengthInBmp | Models/Payment.cs:23-24 | A text's `string.Length` (UTF-16 code units) equals its character count exactly when every character lies in the Basic Multilingual Plane |
| Text.AstralCharTakesTwoUnits | Models/Payment.cs:23-24 | U+1F600 is one character but two code units of the column width |
| Text.DecimalRoundTrip | Controllers/AdminController.cs:325 | The decimal rendering of a payment id parses back to the id |
| Text.Int32DecimalLength | Controllers/AdminController.cs:325 | A 32-bit id renders in at most 11 characters |

## Left out

- ZoomService (HTTP/OAuth), the program's startup and the migrations are outside the model. The migrations' one-to-one indexes and foreign keys appear as `Db.Valid`.
- Login, registration and profile editing, `DoctorController`, `DeletePatient` and the listing/details pages without logic are not modelled. They are data entry or rendering.
- Concurrency: the read-then-write race in booking is not modelled. Every action runs alone.
- Decimal amounts are integers in minor units, so there is no rounding or precision limit.
- Identity columns are unbounded integers, so there is no 32-bit overflow of ids.
- `ToLower` is modelled for ASCII letters only; culture-specific case mapping is not modelled.
- The `yyyyMMddHHmmss` text of the clock is an input (`Clock.stamp`), not computed from `now`.
- Listings.AppointmentHistory, Listings.AvailableAppointments: one `now` stands for two clocks. These two queries read `DateTime.Now` / `DateTime.Today` inside the LINQ condition (Controllers/PatientController.cs:212, :243), which the SQL Server provider evaluates as `GETDATE()` on the database server. The upcoming list, the profile and the dashboard read the web server's clock. The model assumes both clocks agree. Listings.UpcomingAppointments and Listings.ProfileInfo read `DateTime.Now` and `DateTime.Today` one after the other (Controllers/PatientController.cs:327-328, :381-382); the model takes today as the date of the same `now`, so a request that straddles midnight is not modelled. `Listings.HistoryListsLaterToday`, `Listings.CorrectedHistorySplitsWithUpcoming` and `Listings.BookingMovesSlot` compare lists under these assumptions.
- Ties in SQL `ORDER BY` are unspecified. The model breaks them by key order, since its sort is stable over the table scan in key order.
- A null `status` query value makes `status.ToLower()` throw. The model's query value is always a string.
- A schedule form with a null DayOfWeek would fail on save (a non-nullable column). The model accepts any string.
- Booking and cancellation check no appointment status: a Completed or Cancelled open slot can be booked, and any appointment can be cancelled.
- Appointment.PatientId is declared as a plain `int` but compared with null by the controllers. It is modelled as optional (None = open slot), following the controllers.
- The doctor model in Models/Doctor.cs is stale. `Doctor` carries the columns the controllers use, with ClinicId from the migration that adds it.
- Booking.NoDoubleBooking: its proof needs no steps beyond the contracts of `BookAppointment`.
- Listings.ProfileInfo: its contract states only the Login case. The figures are stated by the lemmas that follow it.
- Listings.ProfileTotalPaidIsCompletedTotal: relates the two pages only while PaidAt is set exactly on Completed payments. An approval or lazy creation keeps that true (`Payments.SettlementKeepsPaidAtInStep`, `Payments.CreationKeepsPaidAtInStep`), but rows loaded from elsewhere may not satisfy it.
- The payment page's catch block (Controllers/PatientController.cs:189-194) is not modelled: with the store valid, the lazy creation's SaveChanges cannot fail (the new rows fit their columns and reference existing appointments).

## Findings

| source | as written | input that shows it | evidently intended | confidence | as-written member | corrected member |
|---|---|---|---|---|---|---|
| Controllers/PatientController.cs:212 | the history keeps appointments with `AppointmentDate < DateTime.Now`; the date is midnight of the appointment's day, so the time of day is ignored | now = day 10 at 09:00 on both the web server's and the database server's clock, an appointment of the patient on day 10 at 10:00: it is listed in the history and among the upcoming appointments | history = appointments whose date and time have passed (as the profile's past count computes at lines 391-394), complementing the upcoming list | medium; not executed | Listings.HistoryListsLaterToday | Listings.CorrectedHistorySplitsWithUpcoming |
