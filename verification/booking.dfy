/**
 * PatientController.BookAppointment and the two CancelAppointment actions (patient and
 * administrator), which have the same effect on the store.
 */
module Booking {
  import opened Wrappers
  import opened Models
  import opened Db
  import opened Text

  /** Random.Next(100000, 999999): the upper bound is exclusive. */
  type SessionNumber = n: int | 100000 <= n < 999999 witness 100000

  datatype BookingOutcome =
    | LoginRequired        // the patient id is unknown: redirect to Login
    | AppointmentNotFound  // "Appointment not found."
    | AlreadyBooked        // the slot already has a patient
    | BookingFailed        // an exception before the save: no doctor for an in-person slot, or a column too wide
    | BookedWithError      // the save committed, then the success message dereferenced a missing doctor
    | Booked

  predicate Committed(o: BookingOutcome) {
    o == Booked || o == BookedWithError
  }

  /** The in-person slot takes over its doctor's clinic. */
  predicate TakesDoctorsClinic(a: Appointment, doctor: Option<Doctor>) {
    a.kind == InPerson && doctor.Some? && doctor.value.clinicId.Some?
  }

  /** The row a successful booking writes. */
  function Claim(a: Appointment, patientId: int, symptoms: Option<string>, doctor: Option<Doctor>,
                 session: SessionNumber): (b: Appointment)
    ensures b.patientId == Some(patientId) && b.status == Confirmed
    ensures !NullOrEmpty(symptoms) ==> b.symptoms == symptoms
    ensures NullOrEmpty(symptoms) ==> b.symptoms == a.symptoms
    ensures TakesDoctorsClinic(a, doctor) ==> b.clinicId == doctor.value.clinicId
    ensures !TakesDoctorsClinic(a, doctor) ==> b.clinicId == a.clinicId
    ensures a.kind == Video ==> b.sessionId == session && 100000 <= b.sessionId < 999999
    ensures a.kind == InPerson ==> b.sessionId == a.sessionId
    ensures && b.id == a.id && b.date == a.date && b.time == a.time && b.kind == a.kind
            && b.fee == a.fee && b.doctorId == a.doctorId && b.perceptionNotes == a.perceptionNotes
            && b.paymentId == a.paymentId
  {
    a.(patientId := Some(patientId),
       status := Confirmed,
       symptoms := if NullOrEmpty(symptoms) then a.symptoms else symptoms,
       clinicId := if TakesDoctorsClinic(a, doctor) then doctor.value.clinicId else a.clinicId,
       sessionId := if a.kind == Video then session else a.sessionId)
  }

  /** The slot is open: nobody has booked it. The status is not consulted. */
  predicate IsOpen(s: Store, appointmentId: int) {
    appointmentId in s.appointments && s.appointments[appointmentId].patientId.None?
  }

  /**
   * PatientController.BookAppointment: a guarded claim of an open slot. `session` is the
   * value Random.Next(100000, 999999) would have drawn.
   */
  function BookAppointment(s: Store, appointmentId: int, patientId: int, symptoms: Option<string>,
                           session: SessionNumber): (r: (BookingOutcome, Store))
    ensures r.0 == LoginRequired <==> patientId !in s.patients
    ensures r.0 == AppointmentNotFound <==> patientId in s.patients && appointmentId !in s.appointments
    ensures r.0 == AlreadyBooked <==>
      patientId in s.patients && appointmentId in s.appointments && s.appointments[appointmentId].patientId.Some?
    ensures !Committed(r.0) ==> r.1 == s
    ensures Committed(r.0) <==>
      && patientId in s.patients && IsOpen(s, appointmentId)
      && var a := s.appointments[appointmentId];
         && (a.kind == Video || DoctorOf(s, a).Some?)
         && AppointmentFits(Claim(a, patientId, symptoms, DoctorOf(s, a), session))
    ensures Committed(r.0) ==>
      && appointmentId in s.appointments
      && var a := s.appointments[appointmentId];
         && r.1 == s.(appointments := s.appointments[appointmentId := Claim(a, patientId, symptoms, DoctorOf(s, a), session)])
         && (r.0 == BookedWithError <==> DoctorOf(s, a).None?)
    ensures Valid(s) ==> Valid(r.1)
  {
    if patientId !in s.patients then (LoginRequired, s)
    else if appointmentId !in s.appointments then (AppointmentNotFound, s)
    else
      var a := s.appointments[appointmentId];
      if a.patientId.Some? then (AlreadyBooked, s)
      else
        var doctor := DoctorOf(s, a);
        if a.kind == InPerson && doctor.None? then (BookingFailed, s)
        else
          var b := Claim(a, patientId, symptoms, doctor, session);
          if !AppointmentFits(b) then (BookingFailed, s)
          else
            var s' := s.(appointments := s.appointments[appointmentId := b]);
            if doctor.None? then (BookedWithError, s') else (Booked, s')
  }

  /** Once a booking has committed, no later attempt on the same slot succeeds or changes anything. */
  lemma NoDoubleBooking(s: Store, appointmentId: int, first: int, second: int,
                        symptoms1: Option<string>, symptoms2: Option<string>,
                        session1: SessionNumber, session2: SessionNumber)
    requires Committed(BookAppointment(s, appointmentId, first, symptoms1, session1).0)
    requires second in s.patients
    ensures var s1 := BookAppointment(s, appointmentId, first, symptoms1, session1).1;
            BookAppointment(s1, appointmentId, second, symptoms2, session2) == (AlreadyBooked, s1)
  {
  }

  /**
   * PatientController.CancelAppointment and AdminController.CancelAppointment: the status
   * becomes Cancelled, whatever it was, and the row, its payment and every other row stay.
   */
  function CancelAppointment(s: Store, id: int): (r: (Outcome, Store))
    ensures id !in s.appointments ==> r == (NotFound, s)
    ensures id in s.appointments ==>
      && r.0 == Done
      && r.1.appointments.Keys == s.appointments.Keys
      && r.1.appointments[id].status == Cancelled
      && r.1.appointments[id] == s.appointments[id].(status := Cancelled)
      && (forall k | k in s.appointments && k != id :: r.1.appointments[k] == s.appointments[k])
      && r.1.payments == s.payments
      && r.1 == s.(appointments := r.1.appointments)
    ensures Valid(s) ==> Valid(r.1)
  {
    if id !in s.appointments then (NotFound, s)
    else (Done, s.(appointments := s.appointments[id := s.appointments[id].(status := Cancelled)]))
  }
}
