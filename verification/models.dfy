/**
 * The records of the core: Appointment, Payment, Doctor and Schedule, with the enums
 * Appointment.Type, Appointment.Status and Payment.PaymentStatus and the column widths
 * the entity annotations declare.
 */
module Models {
  import opened Wrappers
  import opened Calendar
  import opened Text

  /** AppointmentType: Video = 1, InPerson = 2. */
  datatype AppointmentType = Video | InPerson

  function TypeCode(t: AppointmentType): (n: int)
    ensures 1 <= n <= 2
  {
    match t
    case Video => 1
    case InPerson => 2
  }

  /** The enum value stored under an integer column value, if any. */
  function TypeFromCode(n: int): (r: Option<AppointmentType>)
    ensures r.Some? <==> 1 <= n <= 2
    ensures forall t :: r == Some(t) <==> TypeCode(t) == n
  {
    if n == 1 then Some(Video) else if n == 2 then Some(InPerson) else None
  }

  /** AppointmentStatus: Pending = 1, Confirmed = 2, Completed = 3, Cancelled = 4. */
  datatype AppointmentStatus = Pending | Confirmed | Completed | Cancelled

  function StatusCode(s: AppointmentStatus): (n: int)
    ensures 1 <= n <= 4
  {
    match s
    case Pending => 1
    case Confirmed => 2
    case Completed => 3
    case Cancelled => 4
  }

  function StatusFromCode(n: int): (r: Option<AppointmentStatus>)
    ensures r.Some? <==> 1 <= n <= 4
    ensures forall s :: r == Some(s) <==> StatusCode(s) == n
  {
    if n == 1 then Some(AppointmentStatus.Pending)
    else if n == 2 then Some(Confirmed)
    else if n == 3 then Some(AppointmentStatus.Completed)
    else if n == 4 then Some(Cancelled)
    else None
  }

  /** PaymentStatus: Pending = 1, Completed = 2, Failed = 3. */
  datatype PaymentStatus = Pending | Completed | Failed

  function PaymentStatusCode(s: PaymentStatus): (n: int)
    ensures 1 <= n <= 3
  {
    match s
    case Pending => 1
    case Completed => 2
    case Failed => 3
  }

  function PaymentStatusFromCode(n: int): (r: Option<PaymentStatus>)
    ensures r.Some? <==> 1 <= n <= 3
    ensures forall s :: r == Some(s) <==> PaymentStatusCode(s) == n
  {
    if n == 1 then Some(PaymentStatus.Pending)
    else if n == 2 then Some(PaymentStatus.Completed)
    else if n == 3 then Some(PaymentStatus.Failed)
    else None
  }

  const MaxSymptomsLength: int := 500
  const MaxPerceptionNotesLength: int := 1000
  const MaxCurrencyLength: int := 5
  const MaxTransactionIdLength: int := 100
  const DefaultCurrency: string := "EGP"

  /**
   * An appointment row. `patientId` is nullable: the entity declares a plain int, but the
   * controllers treat a null patient as an open slot, and that intent is what is modelled.
   * Money is an integer number of minor units.
   */
  datatype Appointment = Appointment(
    id: int,
    date: DateTime,
    time: TimeSpan,
    kind: AppointmentType,
    status: AppointmentStatus,
    symptoms: Option<string>,
    perceptionNotes: Option<string>,
    fee: int,
    patientId: Option<int>,
    doctorId: Option<int>,
    clinicId: Option<int>,
    paymentId: Option<int>,
    sessionId: int)

  /** A payment row; `paidAt` and `transactionId` stay null until an administrator acts. */
  datatype Payment = Payment(
    id: int,
    amount: int,
    currency: string,
    status: PaymentStatus,
    paidAt: Option<DateTime>,
    transactionId: Option<string>,
    appointmentId: int)

  /** The doctor columns the core reads (ClinicId was added to the table by a later migration). */
  datatype Doctor = Doctor(id: int, clinicId: Option<int>, consultationFee: int, onlineFee: int)

  /** A doctor's weekly availability rule. */
  datatype Schedule = Schedule(
    id: int,
    dayOfWeek: string,
    maxPatientPerDay: int,
    startTime: TimeSpan,
    endTime: TimeSpan,
    doctorId: int)

  /** A nullable text fits an nvarchar(width) column, measured in UTF-16 code units. */
  predicate FitsWidth(s: Option<string>, width: int) {
    s.None? || Utf16Length(s.value) <= width
  }

  /** The appointment's text columns fit their declared widths (nvarchar(500), nvarchar(1000)). */
  predicate AppointmentFits(a: Appointment) {
    FitsWidth(a.symptoms, MaxSymptomsLength) && FitsWidth(a.perceptionNotes, MaxPerceptionNotesLength)
  }

  /** The payment's text columns fit their declared widths (nvarchar(5), nvarchar(100)). */
  predicate PaymentFits(p: Payment) {
    Utf16Length(p.currency) <= MaxCurrencyLength && FitsWidth(p.transactionId, MaxTransactionIdLength)
  }
}
