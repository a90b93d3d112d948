/**
 * The database as the controllers see it: one finite map per table, keyed by primary key,
 * plus the next values of the identity columns the core inserts into. `Valid` collects the
 * keys, foreign keys, unique indexes and column widths of the data model; the two deletions
 * the model configures to cascade are here too.
 */
module Db {
  import opened Wrappers
  import opened Models

  datatype Store = Store(
    patients: set<int>,
    doctors: map<int, Doctor>,
    appointments: map<int, Appointment>,
    payments: map<int, Payment>,
    schedules: map<int, Schedule>,
    nextPaymentId: int,
    nextScheduleId: int)

  /** The outcome an action reports: done, an unknown id, a refused transition, or an exception (caught or not). */
  datatype Outcome = Done | NotFound | NotPending | Error

  /** Every row is stored under its own primary key. */
  predicate KeysMatch(s: Store) {
    && (forall k | k in s.doctors :: s.doctors[k].id == k)
    && (forall k | k in s.appointments :: s.appointments[k].id == k)
    && (forall k | k in s.payments :: s.payments[k].id == k)
    && (forall k | k in s.schedules :: s.schedules[k].id == k)
  }

  /** Payment -> Appointment is one-to-one: a foreign key with a unique index. */
  predicate PaymentsBelongToAppointments(s: Store) {
    && (forall k | k in s.payments :: s.payments[k].appointmentId in s.appointments)
    && (forall k1, k2 | k1 in s.payments && k2 in s.payments
          && s.payments[k1].appointmentId == s.payments[k2].appointmentId :: k1 == k2)
  }

  /** Schedule -> Doctor is one-to-one: a foreign key with a unique index. */
  predicate SchedulesBelongToDoctors(s: Store) {
    && (forall k | k in s.schedules :: s.schedules[k].doctorId in s.doctors)
    && (forall k1, k2 | k1 in s.schedules && k2 in s.schedules
          && s.schedules[k1].doctorId == s.schedules[k2].doctorId :: k1 == k2)
  }

  /** An appointment's patient and doctor, when set, exist. */
  predicate AppointmentReferencesExist(s: Store) {
    forall k | k in s.appointments ::
      && (s.appointments[k].patientId.Some? ==> s.appointments[k].patientId.value in s.patients)
      && (s.appointments[k].doctorId.Some? ==> s.appointments[k].doctorId.value in s.doctors)
  }

  predicate RowsFit(s: Store) {
    && (forall k | k in s.appointments :: AppointmentFits(s.appointments[k]))
    && (forall k | k in s.payments :: PaymentFits(s.payments[k]))
  }

  /** Identity columns hand out keys above every key in use. */
  predicate IdentitiesAhead(s: Store) {
    && (forall k | k in s.payments :: k < s.nextPaymentId)
    && (forall k | k in s.schedules :: k < s.nextScheduleId)
  }

  predicate Valid(s: Store) {
    && KeysMatch(s)
    && PaymentsBelongToAppointments(s)
    && SchedulesBelongToDoctors(s)
    && AppointmentReferencesExist(s)
    && RowsFit(s)
    && IdentitiesAhead(s)
  }

  /** The appointment has a payment row (the `Payment` navigation is not null). */
  predicate HasPayment(s: Store, appointmentId: int) {
    exists k | k in s.payments :: s.payments[k].appointmentId == appointmentId
  }

  /** The doctor an appointment's `Doctor` navigation loads, or null. */
  function DoctorOf(s: Store, a: Appointment): (d: Option<Doctor>)
    ensures d.Some? <==> a.doctorId.Some? && a.doctorId.value in s.doctors
    ensures d.Some? ==> d.value == s.doctors[a.doctorId.value]
  {
    if a.doctorId.Some? && a.doctorId.value in s.doctors then Some(s.doctors[a.doctorId.value]) else None
  }

  /**
   * AdminController.DeleteAppointment: removes the row; the payment goes with it
   * (Payment -> Appointment is configured with cascading delete).
   */
  function DeleteAppointment(s: Store, id: int): (r: (Outcome, Store))
    ensures id !in s.appointments ==> r == (NotFound, s)
    ensures id in s.appointments ==>
      && r.0 == Done
      && r.1.appointments.Keys == s.appointments.Keys - {id}
      && (forall k | k in r.1.appointments :: r.1.appointments[k] == s.appointments[k])
      && (forall k :: k in r.1.payments <==> k in s.payments && s.payments[k].appointmentId != id)
      && (forall k | k in r.1.payments :: r.1.payments[k] == s.payments[k])
      && r.1 == s.(appointments := r.1.appointments, payments := r.1.payments)
    ensures Valid(s) ==> Valid(r.1)
  {
    if id !in s.appointments then (NotFound, s)
    else
      var payments := map k | k in s.payments && s.payments[k].appointmentId != id :: s.payments[k];
      (Done, s.(appointments := s.appointments - {id}, payments := payments))
  }

  /**
   * AdminController.DeleteDoctor: removes the row and, by cascade, the doctor's schedule.
   * Appointments reference doctors without a delete rule, so the database refuses to
   * delete a doctor that any appointment still names; nothing changes then.
   */
  function DeleteDoctor(s: Store, id: int): (r: (Outcome, Store))
    ensures id !in s.doctors ==> r == (NotFound, s)
    ensures id in s.doctors && (exists k | k in s.appointments :: s.appointments[k].doctorId == Some(id)) ==>
      r == (Error, s)
    ensures r.0 == Done <==> id in s.doctors && forall k | k in s.appointments :: s.appointments[k].doctorId != Some(id)
    ensures r.0 == Done ==>
      && r.1.doctors.Keys == s.doctors.Keys - {id}
      && (forall k | k in r.1.doctors :: r.1.doctors[k] == s.doctors[k])
      && (forall k :: k in r.1.schedules <==> k in s.schedules && s.schedules[k].doctorId != id)
      && (forall k | k in r.1.schedules :: r.1.schedules[k] == s.schedules[k])
      && r.1 == s.(doctors := r.1.doctors, schedules := r.1.schedules)
    ensures Valid(s) ==> Valid(r.1)
  {
    if id !in s.doctors then (NotFound, s)
    else if exists k | k in s.appointments :: s.appointments[k].doctorId == Some(id) then (Error, s)
    else
      var schedules := map k | k in s.schedules && s.schedules[k].doctorId != id :: s.schedules[k];
      (Done, s.(doctors := s.doctors - {id}, schedules := schedules))
  }
}
