/** AdminController.Dashboard: the figures on the administrator's landing page. */
module Dashboard {
  import opened Wrappers
  import opened Calendar
  import opened Seqs
  import opened Tables
  import opened Models
  import opened Db
  import opened Payments

  datatype Figures = Figures(
    totalPatients: nat,
    totalDoctors: nat,
    totalAppointments: nat,
    totalRevenue: int,
    todayAppointments: nat,
    weekAppointments: nat)

  /** AppointmentDate.Date == DateTime.Today. */
  function OnDay(today: DateTime): Appointment -> bool {
    (a: Appointment) => Date(a.date) == today
  }

  /** startOfWeek <= AppointmentDate < endOfWeek. */
  function InWindow(w: Window): Appointment -> bool {
    (a: Appointment) => w.Contains(a.date)
  }

  /**
   * The dashboard, or `None` where computing the week's bounds throws (the first days of
   * year 1 and the last week of year 9999).
   */
  function AdminDashboard(s: Store, now: DateTime): (r: Option<Figures>)
    ensures r.None? <==> now < 6 * TicksPerDay || now >= (LastWindowDay + 1) * TicksPerDay
    ensures r.Some? ==>
      && r.value.totalPatients == |s.patients| && r.value.totalDoctors == |s.doctors|
      && r.value.totalAppointments == |s.appointments| && r.value.totalRevenue == Revenue(s)
    ensures r.Some? ==> r.value.todayAppointments <= r.value.weekAppointments <= r.value.totalAppointments
  {
    match WeekWindow(now)
    case None => None
    case Some(w) =>
      var rows := Rows(s.appointments);
      TodayWithinWeek(rows, Date(now), w);
      CountMonotonic(rows, InWindow(w), (a: Appointment) => true);
      CountAll(rows);
      Some(FiguresIn(s, now, w))
  }

  /** The six figures, for the week `w` around `now`. */
  function FiguresIn(s: Store, now: DateTime, w: Window): Figures {
    var rows := Rows(s.appointments);
    Figures(
      |s.patients|,
      |s.doctors|,
      |s.appointments|,
      Revenue(s),
      Count(rows, OnDay(Date(now))),
      Count(rows, InWindow(w)))
  }

  /**
   * The two appointment figures count the rows the dashboard's conditions select: those dated
   * today, and those inside the week window [startOfWeek, endOfWeek) around today.
   */
  lemma DashboardFigures(s: Store, now: DateTime)
    requires WeekWindow(now).Some?
    ensures var w, f := WeekWindow(now).value, AdminDashboard(s, now).value;
            var week, today := Filter(Rows(s.appointments), InWindow(w)), Filter(Rows(s.appointments), OnDay(Date(now)));
            && f.weekAppointments == |week|
            && f.todayAppointments == |today|
            && (forall a :: a in week <==> a in s.appointments.Values && w.Contains(a.date))
            && (forall a :: a in today <==> a in s.appointments.Values && Date(a.date) == Date(now))
  {
    var w := WeekWindow(now).value;
    assert AdminDashboard(s, now) == Some(FiguresIn(s, now, w));
    FilterLength(Rows(s.appointments), InWindow(w));
    FilterLength(Rows(s.appointments), OnDay(Date(now)));
    RowsMembers(s.appointments);
  }

  /** Every appointment on today's date lies inside the week window that contains today. */
  lemma TodayWithinWeek(xs: seq<Appointment>, today: DateTime, w: Window)
    requires today % TicksPerDay == 0 && w.Contains(today)
    requires w.start % TicksPerDay == 0 && w.end - w.start == 7 * TicksPerDay
    ensures Count(xs, OnDay(today)) <= Count(xs, InWindow(w))
  {
    var q1, q2 := today / TicksPerDay, w.end / TicksPerDay;
    assert today == q1 * TicksPerDay;
    assert w.end == q2 * TicksPerDay;
    assert today + TicksPerDay <= w.end;
    forall a | a in xs && OnDay(today)(a)
      ensures InWindow(w)(a)
    {
      assert Date(a.date) <= a.date < Date(a.date) + TicksPerDay;
    }
    CountMonotonic(xs, OnDay(today), InWindow(w));
  }

  lemma {:induction false} CountAll(xs: seq<Appointment>)
    ensures Count(xs, (a: Appointment) => true) == |xs|
  {
    if xs != [] {
      CountAll(xs[1..]);
    }
  }

  /** Payments enter the dashboard only through its revenue. */
  lemma PaymentsShowOnlyInRevenue(s: Store, s': Store, now: DateTime)
    requires s' == s.(payments := s'.payments)
    requires WeekWindow(now).Some?
    ensures AdminDashboard(s', now).Some?
    ensures AdminDashboard(s', now).value == AdminDashboard(s, now).value.(totalRevenue := Revenue(s'))
  {
    var w := WeekWindow(now).value;
    assert AdminDashboard(s, now) == Some(FiguresIn(s, now, w));
    assert AdminDashboard(s', now) == Some(FiguresIn(s', now, w));
  }

  /** Approving a payment raises the dashboard's revenue by its amount and changes no other figure. */
  lemma ApprovalShowsOnDashboard(s: Store, id: int, transactionId: Option<string>, clock: Clock, now: DateTime)
    requires ApprovePayment(s, id, transactionId, clock).0 == Done
    requires WeekWindow(now).Some?
    ensures var before := AdminDashboard(s, now).value;
            var after := AdminDashboard(ApprovePayment(s, id, transactionId, clock).1, now).value;
            after == before.(totalRevenue := before.totalRevenue + s.payments[id].amount)
  {
    var s' := ApprovePayment(s, id, transactionId, clock).1;
    ApprovalTouchesOnlyPayments(s, id, transactionId, clock);
    PaymentsShowOnlyInRevenue(s, s', now);
  }

  /** An approval changes only the payments table, and the revenue by the amount. */
  lemma ApprovalTouchesOnlyPayments(s: Store, id: int, transactionId: Option<string>, clock: Clock)
    requires ApprovePayment(s, id, transactionId, clock).0 == Done
    ensures var s' := ApprovePayment(s, id, transactionId, clock).1;
            && s' == s.(payments := s'.payments)
            && Revenue(s') == Revenue(s) + s.payments[id].amount
  {
    ApproveAddsToRevenue(s, id, transactionId, clock);
  }
}
