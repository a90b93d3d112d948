/**
 * The patient's read-only pages: UpcomingAppointments, AvailableAppointments,
 * AppointmentHistory and ProfileInfo. Each sends an unknown patient id to Login (`None`).
 * `now` is DateTime.Now; DateTime.Today is `Date(now)`.
 */
module Listings {
  import opened Wrappers
  import opened Calendar
  import opened Seqs
  import opened Tables
  import opened Models
  import opened Db
  import opened Booking
  import opened Payments

  /** AppointmentDate > today || (AppointmentDate == today && AppointmentTime >= now.TimeOfDay). */
  predicate IsUpcoming(a: Appointment, now: DateTime) {
    AtOrAfter(a, Date(now), TimeOfDay(now))
  }

  /** AppointmentDate < today || (AppointmentDate == today && AppointmentTime < now.TimeOfDay). */
  predicate IsPast(a: Appointment, now: DateTime) {
    Before(a, Date(now), TimeOfDay(now))
  }

  predicate AtOrAfter(a: Appointment, today: DateTime, time: TimeSpan) {
    a.date > today || (a.date == today && a.time >= time)
  }

  predicate Before(a: Appointment, today: DateTime, time: TimeSpan) {
    a.date < today || (a.date == today && a.time < time)
  }

  /** OrderBy(AppointmentDate).ThenBy(AppointmentTime). */
  function ByDateTime(a: Appointment): Key {
    Key(a.date, a.time)
  }

  /** OrderByDescending(AppointmentDate).ThenByDescending(AppointmentTime). */
  function ByDateTimeDescending(a: Appointment): Key {
    var date: int := a.date;
    Key(-date, -a.time)
  }

  /** The rows of the appointments table that satisfy `p`, ordered by `key`. */
  function Query(s: Store, p: Appointment -> bool, key: Appointment -> Key): (r: seq<Appointment>)
    ensures SortedBy(r, key)
    ensures |r| == Count(Rows(s.appointments), p)
  {
    FilterLength(Rows(s.appointments), p);
    SortBy(Filter(Rows(s.appointments), p), key)
  }

  /** One appointment is in a query's result exactly when it is a row satisfying the condition. */
  lemma QueryMember(s: Store, p: Appointment -> bool, key: Appointment -> Key, a: Appointment)
    ensures a in Query(s, p, key) <==> a in s.appointments.Values && p(a)
  {
    RowsMembers(s.appointments);
  }

  /** A query returns exactly the rows of the table that satisfy its condition. */
  lemma QueryMembers(s: Store, p: Appointment -> bool, key: Appointment -> Key)
    ensures forall a :: a in Query(s, p, key) <==> a in s.appointments.Values && p(a)
  {
    RowsMembers(s.appointments);
  }

  // ---------------------------------------------------------------------------------------
  // UpcomingAppointments

  function UpcomingOf(patientId: int, now: DateTime): Appointment -> bool {
    (a: Appointment) => a.patientId == Some(patientId) && a.status != Cancelled && IsUpcoming(a, now)
  }

  /** PatientController.UpcomingAppointments: the patient's non-cancelled future appointments, soonest first. */
  function UpcomingAppointments(s: Store, patientId: int, now: DateTime): (r: Option<seq<Appointment>>)
    ensures r.None? <==> patientId !in s.patients
    ensures r.Some? ==> SortedBy(r.value, ByDateTime)
  {
    if patientId !in s.patients then None else Some(Query(s, UpcomingOf(patientId, now), ByDateTime))
  }

  /**
   * Cancelling takes the appointment off every upcoming list and leaves every other
   * upcoming appointment where it was.
   */
  lemma CancelLeavesUpcoming(s: Store, id: int, patientId: int, now: DateTime)
    requires Valid(s) && patientId in s.patients
    ensures var before := UpcomingAppointments(s, patientId, now).value;
            var after := UpcomingAppointments(CancelAppointment(s, id).1, patientId, now).value;
            && (forall a | a in after :: a.id != id)
            && (forall a | a in before && a.id != id :: a in after)
            && (forall a | a in after :: a in before)
  {
    var s' := CancelAppointment(s, id).1;
    QueryMembers(s, UpcomingOf(patientId, now), ByDateTime);
    QueryMembers(s', UpcomingOf(patientId, now), ByDateTime);
    assert forall k | k in s'.appointments :: s'.appointments[k].id == k;
    forall a | a in s.appointments.Values && a.id != id
      ensures a in s'.appointments.Values
    {
      var k :| k in s.appointments && s.appointments[k] == a;
      assert s'.appointments[k] == a;
    }
    forall a | a in s'.appointments.Values && a.status != Cancelled
      ensures a in s.appointments.Values
    {
      var k :| k in s'.appointments && s'.appointments[k] == a;
      assert k != id;
      assert s.appointments[k] == a;
    }
  }

  // ---------------------------------------------------------------------------------------
  // AvailableAppointments

  function AvailableOn(now: DateTime): Appointment -> bool {
    (a: Appointment) => a.patientId.None? && a.status == AppointmentStatus.Pending && a.date >= Date(now)
  }

  /** PatientController.AvailableAppointments: open Pending slots from today on, soonest first. */
  function AvailableAppointments(s: Store, patientId: int, now: DateTime): (r: Option<seq<Appointment>>)
    ensures r.None? <==> patientId !in s.patients
    ensures r.Some? ==> SortedBy(r.value, ByDateTime)
  {
    if patientId !in s.patients then None else Some(Query(s, AvailableOn(now), ByDateTime))
  }

  /**
   * A committed booking takes the slot off everyone's available list; it shows on the
   * booking patient's upcoming list when its time has not passed.
   */
  lemma BookingMovesSlot(s: Store, id: int, patientId: int, symptoms: Option<string>,
                         session: SessionNumber, viewer: int, now: DateTime)
    requires Valid(s) && viewer in s.patients
    requires Committed(BookAppointment(s, id, patientId, symptoms, session).0)
    ensures var s' := BookAppointment(s, id, patientId, symptoms, session).1;
            && (forall a | a in AvailableAppointments(s', viewer, now).value :: a.id != id)
            && (IsUpcoming(s'.appointments[id], now) ==>
                  s'.appointments[id] in UpcomingAppointments(s', patientId, now).value)
  {
    var s' := BookAppointment(s, id, patientId, symptoms, session).1;
    QueryMembers(s', AvailableOn(now), ByDateTime);
    QueryMembers(s', UpcomingOf(patientId, now), ByDateTime);
    assert s'.appointments[id] in s'.appointments.Values;
    forall a | a in s'.appointments.Values && a.id == id
      ensures a.patientId.Some?
    {
      var k :| k in s'.appointments && s'.appointments[k] == a;
      assert k == id;
    }
  }

  // ---------------------------------------------------------------------------------------
  // AppointmentHistory

  /** AppointmentDate < DateTime.Now, as the history page filters. */
  function HistoryOf(patientId: int, now: DateTime): Appointment -> bool {
    (a: Appointment) => a.patientId == Some(patientId) && a.date < now
  }

  /** The history page: the list, newest first, with its three figures. */
  datatype History = History(appointments: seq<Appointment>, total: nat, completed: nat, cancelled: nat)

  function IsStatusOf(st: AppointmentStatus): Appointment -> bool {
    (a: Appointment) => a.status == st
  }

  function HistoryPage(xs: seq<Appointment>): (h: History)
    ensures h.completed + h.cancelled <= h.total == |xs|
  {
    CountUnion(xs, IsStatusOf(AppointmentStatus.Completed), IsStatusOf(Cancelled),
               (a: Appointment) => a.status == AppointmentStatus.Completed || a.status == Cancelled);
    History(xs, |xs|, Count(xs, IsStatusOf(AppointmentStatus.Completed)), Count(xs, IsStatusOf(Cancelled)))
  }

  /** PatientController.AppointmentHistory, as written: every appointment dated before this instant. */
  function AppointmentHistory(s: Store, patientId: int, now: DateTime): (r: Option<History>)
    ensures r.None? <==> patientId !in s.patients
    ensures r.Some? ==> SortedBy(r.value.appointments, ByDateTimeDescending)
    ensures r.Some? ==> r.value.completed + r.value.cancelled <= r.value.total
  {
    if patientId !in s.patients then None
    else Some(HistoryPage(Query(s, HistoryOf(patientId, now), ByDateTimeDescending)))
  }

  /**
   * The history's figures count its own list: all of it, the Completed rows and the Cancelled
   * rows, and the Completed ones are exactly the patient's completed appointments dated before now.
   */
  lemma HistoryFigures(s: Store, patientId: int, now: DateTime)
    requires patientId in s.patients
    ensures var h := AppointmentHistory(s, patientId, now).value;
            && h.total == |h.appointments|
            && h.completed == |Filter(h.appointments, IsStatusOf(AppointmentStatus.Completed))|
            && h.cancelled == |Filter(h.appointments, IsStatusOf(Cancelled))|
    ensures var h := AppointmentHistory(s, patientId, now).value;
            forall a :: a in Filter(h.appointments, IsStatusOf(AppointmentStatus.Completed)) <==>
              && a in s.appointments.Values && a.patientId == Some(patientId) && a.date < now
              && a.status == AppointmentStatus.Completed
  {
    var h := AppointmentHistory(s, patientId, now).value;
    FilterLength(h.appointments, IsStatusOf(AppointmentStatus.Completed));
    FilterLength(h.appointments, IsStatusOf(Cancelled));
    QueryMembers(s, HistoryOf(patientId, now), ByDateTimeDescending);
  }

  /**
   * AppointmentDate holds a date at midnight, so an appointment later today is dated before
   * DateTime.Now: it is listed as history while it is still upcoming.
   */
  lemma HistoryListsLaterToday(s: Store, patientId: int, now: DateTime, a: Appointment)
    requires patientId in s.patients && a in s.appointments.Values
    requires a.patientId == Some(patientId) && a.status != Cancelled
    requires a.date == Date(now) < now && a.time >= TimeOfDay(now)
    ensures a in AppointmentHistory(s, patientId, now).value.appointments
    ensures a in UpcomingAppointments(s, patientId, now).value
  {
    QueryMember(s, HistoryOf(patientId, now), ByDateTimeDescending, a);
    QueryMember(s, UpcomingOf(patientId, now), ByDateTime, a);
  }

  /** Such an appointment exists: booked for 10:00 today, viewed at 09:00. */
  lemma LaterTodayExample() returns (s: Store, now: DateTime, a: Appointment)
    ensures 1 in s.patients && a in s.appointments.Values
    ensures a.patientId == Some(1) && a.status != Cancelled
    ensures a.date == Date(now) < now && a.time >= TimeOfDay(now)
  {
    now := 10 * TicksPerDay + 9 * 36_000_000_000;
    a := Appointment(7, 10 * TicksPerDay, 10 * 36_000_000_000, InPerson, Confirmed, None, None, 300,
                     Some(1), None, None, None, 0);
    s := Store({1}, map[], map[7 := a], map[], map[], 1, 1);
    assert s.appointments[7] == a;
  }

  /** The history as intended: the appointments whose date and time have passed. */
  function PastOf(patientId: int, now: DateTime): Appointment -> bool {
    (a: Appointment) => a.patientId == Some(patientId) && IsPast(a, now)
  }

  function CorrectedAppointmentHistory(s: Store, patientId: int, now: DateTime): (r: Option<History>)
    ensures r.None? <==> patientId !in s.patients
    ensures r.Some? ==> SortedBy(r.value.appointments, ByDateTimeDescending)
  {
    if patientId !in s.patients then None
    else Some(HistoryPage(Query(s, PastOf(patientId, now), ByDateTimeDescending)))
  }

  /**
   * With the corrected filter every non-cancelled appointment of the patient is on exactly
   * one of the two pages.
   */
  lemma CorrectedHistorySplitsWithUpcoming(s: Store, patientId: int, now: DateTime, a: Appointment)
    requires patientId in s.patients && a in s.appointments.Values
    requires a.patientId == Some(patientId) && a.status != Cancelled
    ensures a in CorrectedAppointmentHistory(s, patientId, now).value.appointments
            <==> a !in UpcomingAppointments(s, patientId, now).value
  {
    QueryMember(s, PastOf(patientId, now), ByDateTimeDescending, a);
    QueryMember(s, UpcomingOf(patientId, now), ByDateTime, a);
  }

  // ---------------------------------------------------------------------------------------
  // ProfileInfo

  datatype Profile = Profile(
    upcomingCount: nat,
    pastCount: nat,
    next: Option<Appointment>,
    lastPayment: Option<Payment>,
    totalPaid: int)

  /** OrderByDescending(p => p.PaidAt) in SQL: a NULL PaidAt sorts after every date. */
  function PaidAtDescending(p: Payment): Key {
    var paidAt: int := p.paidAt.GetOr(0);
    Key(if p.paidAt.Some? then -paidAt else 1, 0)
  }

  function PaidAmount(): Payment -> int {
    (p: Payment) => if p.paidAt.Some? then p.amount else 0
  }

  function First<T>(xs: seq<T>): (r: Option<T>)
    ensures r.Some? <==> xs != []
    ensures r.Some? ==> r.value == xs[0]
  {
    if xs == [] then None else Some(xs[0])
  }

  /** The upcoming-count card: the patient's non-cancelled appointments still ahead. */
  function UpcomingCount(s: Store, patientId: int, now: DateTime): nat {
    Count(Rows(s.appointments), UpcomingOf(patientId, now))
  }

  /** The past-count card: the patient's appointments whose time has passed, cancelled or not. */
  function PastCount(s: Store, patientId: int, now: DateTime): nat {
    Count(Rows(s.appointments), PastOf(patientId, now))
  }

  /** The next-appointment card: FirstOrDefault of the upcoming query. */
  function NextAppointment(s: Store, patientId: int, now: DateTime): Option<Appointment> {
    First(Query(s, UpcomingOf(patientId, now), ByDateTime))
  }

  /** The last-payment card: FirstOrDefault of the patient's payments by PaidAt, descending. */
  function LastPayment(s: Store, patientId: int): Option<Payment> {
    First(SortBy(Filter(Rows(s.payments), Mine(s, patientId)), PaidAtDescending))
  }

  /** The total-paid card: the amounts of the patient's payments that have a PaidAt. */
  function TotalPaid(s: Store, patientId: int): int {
    Sum(Rows(s.payments), Masked(Mine(s, patientId), PaidAmount()))
  }

  /** PatientController.ProfileInfo: the counts and cards of the profile page. */
  function ProfileInfo(s: Store, patientId: int, now: DateTime): (r: Option<Profile>)
    ensures r.None? <==> patientId !in s.patients
  {
    if patientId !in s.patients then None
    else
      Some(Profile(
        UpcomingCount(s, patientId, now),
        PastCount(s, patientId, now),
        NextAppointment(s, patientId, now),
        LastPayment(s, patientId),
        TotalPaid(s, patientId)))
  }

  /** The next-appointment card shows the earliest upcoming appointment, if there is one. */
  lemma ProfileNextIsEarliest(s: Store, patientId: int, now: DateTime)
    ensures var next := NextAppointment(s, patientId, now);
      && (next.Some? <==> UpcomingCount(s, patientId, now) > 0)
      && (next.Some? ==>
            && next.value in s.appointments.Values && UpcomingOf(patientId, now)(next.value)
            && forall a | a in s.appointments.Values && UpcomingOf(patientId, now)(a) ::
                 KeyLe(ByDateTime(next.value), ByDateTime(a)))
  {
    var upcoming := Query(s, UpcomingOf(patientId, now), ByDateTime);
    if upcoming != [] {
      QueryMember(s, UpcomingOf(patientId, now), ByDateTime, upcoming[0]);
      forall a | a in s.appointments.Values && UpcomingOf(patientId, now)(a)
        ensures KeyLe(ByDateTime(upcoming[0]), ByDateTime(a))
      {
        QueryMember(s, UpcomingOf(patientId, now), ByDateTime, a);
        SortedHeadIsLeast(upcoming, ByDateTime, a);
      }
    }
  }

  function CancelledAheadOf(patientId: int, now: DateTime): Appointment -> bool {
    (a: Appointment) => a.patientId == Some(patientId) && a.status == Cancelled && IsUpcoming(a, now)
  }

  function AheadOf(patientId: int, now: DateTime): Appointment -> bool {
    (a: Appointment) => a.patientId == Some(patientId) && IsUpcoming(a, now)
  }

  function OfPatientAppointment(patientId: int): Appointment -> bool {
    (a: Appointment) => a.patientId == Some(patientId)
  }

  /**
   * The upcoming count leaves out cancelled appointments and the past count does not, so the
   * two together with the cancelled upcoming ones count each of the patient's appointments once.
   */
  lemma ProfileCountsCoverAppointments(s: Store, patientId: int, now: DateTime)
    ensures UpcomingCount(s, patientId, now) + PastCount(s, patientId, now)
              + Count(Rows(s.appointments), CancelledAheadOf(patientId, now))
            == Count(Rows(s.appointments), OfPatientAppointment(patientId))
  {
    CountsCover(Rows(s.appointments), patientId, now);
  }

  /** Each of the patient's appointments is upcoming, cancelled and ahead, or past: exactly one. */
  lemma {:induction false} CountsCover(xs: seq<Appointment>, patientId: int, now: DateTime)
    ensures Count(xs, UpcomingOf(patientId, now)) + Count(xs, PastOf(patientId, now))
              + Count(xs, CancelledAheadOf(patientId, now))
            == Count(xs, OfPatientAppointment(patientId))
  {
    if xs != [] {
      CountsCover(xs[1..], patientId, now);
    }
  }

  /** The last-payment card is shown exactly when the patient has a payment, and shows one of theirs. */
  lemma ProfileLastPaymentIsTheirs(s: Store, patientId: int)
    ensures var last := LastPayment(s, patientId);
      && (last.Some? <==> exists p :: p in s.payments.Values && OfPatient(s, patientId, p))
      && (last.Some? ==> last.value in s.payments.Values && OfPatient(s, patientId, last.value))
  {
    var payments := SortBy(Filter(Rows(s.payments), Mine(s, patientId)), PaidAtDescending);
    if payments != [] {
      RowsMember(s.payments, payments[0]);
    } else {
      forall p | p in s.payments.Values
        ensures !OfPatient(s, patientId, p)
      {
        RowsMember(s.payments, p);
      }
    }
  }

  /**
   * The last-payment card shows a payment with the latest PaidAt among the patient's, and one
   * without PaidAt only when none of them has one.
   */
  lemma ProfileLastPaymentIsLatest(s: Store, patientId: int, p: Payment)
    requires p in s.payments.Values && OfPatient(s, patientId, p) && p.paidAt.Some?
    ensures var last := LastPayment(s, patientId);
      last.Some? && last.value.paidAt.Some? && last.value.paidAt.value >= p.paidAt.value
  {
    var payments := SortBy(Filter(Rows(s.payments), Mine(s, patientId)), PaidAtDescending);
    RowsMember(s.payments, p);
    SortedHeadIsLeast(payments, PaidAtDescending, p);
  }

  /**
   * While PaidAt is set exactly on Completed payments, the profile's total paid is the
   * payment page's total amount.
   */
  lemma ProfileTotalPaidIsCompletedTotal(s: Store, patientId: int)
    requires PaidAtMatchesStatus(s)
    ensures TotalPaid(s, patientId) == PatientTotal(s, patientId, AmountIf(PaymentStatus.Completed))
  {
    RowsMembers(s.payments);
    SumCongruent(Rows(s.payments), Masked(Mine(s, patientId), PaidAmount()),
                 Masked(Mine(s, patientId), AmountIf(PaymentStatus.Completed)));
  }
}
