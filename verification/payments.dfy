/**
 * The payment lifecycle: PatientController.Payment creates Pending payments lazily and
 * summarises them; AdminController.ApprovePayment / RejectPayment move a Pending payment to
 * Completed or Failed; AdminController.Payments lists payments by status.
 */
module Payments {
  import opened Wrappers
  import opened Calendar
  import opened Seqs
  import opened Tables
  import opened Text
  import opened Models
  import opened Db

  // ---------------------------------------------------------------------------------------
  // Lazy creation (PatientController.Payment)

  /** The appointment belongs to the patient, is not cancelled and has no payment yet. */
  predicate NeedsPayment(s: Store, patientId: int, a: Appointment) {
    a.patientId == Some(patientId) && a.status != Cancelled && !HasPayment(s, a.id)
  }

  /** The row created for an appointment without a payment. */
  function NewPendingPayment(id: int, a: Appointment): (p: Payment)
    ensures p.id == id && p.appointmentId == a.id && p.amount == a.fee
    ensures p.status == PaymentStatus.Pending && p.currency == DefaultCurrency
    ensures p.paidAt.None? && p.transactionId.None?
  {
    Payment(id, a.fee, DefaultCurrency, PaymentStatus.Pending, None, None, a.id)
  }

  /** Inserts a Pending payment for appointment `a` under the next payment identity. */
  function AddPendingPayment(s: Store, a: Appointment): (r: Store)
    requires Valid(s) && a.id in s.appointments && s.appointments[a.id] == a && !HasPayment(s, a.id)
    ensures Valid(r) && HasPayment(r, a.id)
    ensures r.appointments == s.appointments && r.patients == s.patients && r.doctors == s.doctors
    ensures r.schedules == s.schedules && r.nextScheduleId == s.nextScheduleId
    ensures s.nextPaymentId in r.payments && s.nextPaymentId !in s.payments
    ensures r.payments == s.payments[s.nextPaymentId := NewPendingPayment(s.nextPaymentId, a)]
  {
    var id := s.nextPaymentId;
    var r := s.(payments := s.payments[id := NewPendingPayment(id, a)], nextPaymentId := id + 1);
    assert r.payments[id].appointmentId == a.id;
    assert PaymentFits(r.payments[id]);
    r
  }

  /**
   * Walks the appointments under `ids` in order, creating a Pending payment for each one the
   * patient holds that is not cancelled and has none.
   */
  function AddPendingPayments(s: Store, patientId: int, ids: seq<int>): (r: Store)
    requires Valid(s)
    requires forall i | 0 <= i < |ids| :: ids[i] in s.appointments
    ensures Valid(r)
    ensures r == s.(payments := r.payments, nextPaymentId := r.nextPaymentId)
    ensures forall k | k in s.payments :: k in r.payments && r.payments[k] == s.payments[k]
    ensures forall k | k in r.payments && k !in s.payments ::
      && r.payments[k].appointmentId in s.appointments
      && NeedsPayment(s, patientId, s.appointments[r.payments[k].appointmentId])
      && r.payments[k] == NewPendingPayment(k, s.appointments[r.payments[k].appointmentId])
    ensures forall i | 0 <= i < |ids| ::
      s.appointments[ids[i]].patientId == Some(patientId) && s.appointments[ids[i]].status != Cancelled
      ==> HasPayment(r, ids[i])
    decreases |ids|
  {
    if ids == [] then s
    else
      var a := s.appointments[ids[0]];
      assert a.id == ids[0] && s.appointments[a.id] == a;
      var s' := if NeedsPayment(s, patientId, a) then AddPendingPayment(s, a) else s;
      var r := AddPendingPayments(s', patientId, ids[1..]);
      PendingStep(s, s', r, patientId, ids);
      r
  }

  /** The inductive step of `AddPendingPayments`, kept apart to keep each proof small. */
  lemma PendingStep(s: Store, s': Store, r: Store, patientId: int, ids: seq<int>)
    requires Valid(s) && ids != [] && forall i | 0 <= i < |ids| :: ids[i] in s.appointments
    requires Valid(s') && s'.appointments == s.appointments
    requires s.appointments[ids[0]].id == ids[0]
    requires s' == (if NeedsPayment(s, patientId, s.appointments[ids[0]])
                    then AddPendingPayment(s, s.appointments[ids[0]]) else s)
    requires Valid(r)
    requires r == s'.(payments := r.payments, nextPaymentId := r.nextPaymentId)
    requires forall k | k in s'.payments :: k in r.payments && r.payments[k] == s'.payments[k]
    requires forall k | k in r.payments && k !in s'.payments ::
      && r.payments[k].appointmentId in s'.appointments
      && NeedsPayment(s', patientId, s'.appointments[r.payments[k].appointmentId])
      && r.payments[k] == NewPendingPayment(k, s'.appointments[r.payments[k].appointmentId])
    requires forall i | 0 <= i < |ids[1..]| ::
      s'.appointments[ids[1..][i]].patientId == Some(patientId) && s'.appointments[ids[1..][i]].status != Cancelled
      ==> HasPayment(r, ids[1..][i])
    ensures r == s.(payments := r.payments, nextPaymentId := r.nextPaymentId)
    ensures forall k | k in s.payments :: k in r.payments && r.payments[k] == s.payments[k]
    ensures forall k | k in r.payments && k !in s.payments ::
      && r.payments[k].appointmentId in s.appointments
      && NeedsPayment(s, patientId, s.appointments[r.payments[k].appointmentId])
      && r.payments[k] == NewPendingPayment(k, s.appointments[r.payments[k].appointmentId])
    ensures forall i | 0 <= i < |ids| ::
      s.appointments[ids[i]].patientId == Some(patientId) && s.appointments[ids[i]].status != Cancelled
      ==> HasPayment(r, ids[i])
  {
    var a := s.appointments[ids[0]];
    assert s'.appointments == s.appointments;
    forall k | k in r.payments && k !in s.payments
      ensures && r.payments[k].appointmentId in s.appointments
              && NeedsPayment(s, patientId, s.appointments[r.payments[k].appointmentId])
              && r.payments[k] == NewPendingPayment(k, s.appointments[r.payments[k].appointmentId])
    {
      if k !in s'.payments {
        var b := s.appointments[r.payments[k].appointmentId];
        assert forall j | j in s.payments :: j in s'.payments && s'.payments[j] == s.payments[j];
      }
    }
    forall i | 0 <= i < |ids| && s.appointments[ids[i]].patientId == Some(patientId)
               && s.appointments[ids[i]].status != Cancelled
      ensures HasPayment(r, ids[i])
    {
      if i == 0 {
        var j :| j in s'.payments && s'.payments[j].appointmentId == ids[0];
        assert r.payments[j].appointmentId == ids[0];
      } else {
        assert ids[1..][i - 1] == ids[i];
      }
    }
  }

  /** The appointment has exactly one payment row. */
  predicate HasOnePayment(s: Store, appointmentId: int) {
    exists k | k in s.payments :: s.payments[k].appointmentId == appointmentId
      && forall k' | k' in s.payments && s.payments[k'].appointmentId == appointmentId :: k' == k
  }

  /**
   * The write half of PatientController.Payment: every non-cancelled appointment of the
   * patient that has no payment gets a new Pending payment for its fee, in EGP, unpaid;
   * afterwards each of them has exactly one payment.
   */
  function EnsurePendingPayments(s: Store, patientId: int): (r: Store)
    requires Valid(s)
    ensures Valid(r)
    ensures r == s.(payments := r.payments, nextPaymentId := r.nextPaymentId)
    ensures forall k | k in s.payments :: k in r.payments && r.payments[k] == s.payments[k]
    ensures forall k | k in r.payments && k !in s.payments ::
      && r.payments[k].appointmentId in s.appointments
      && NeedsPayment(s, patientId, s.appointments[r.payments[k].appointmentId])
      && r.payments[k] == NewPendingPayment(k, s.appointments[r.payments[k].appointmentId])
    ensures forall k | k in r.appointments && r.appointments[k].patientId == Some(patientId)
                       && r.appointments[k].status != Cancelled :: HasOnePayment(r, k)
  {
    var ids := SortedKeys(s.appointments.Keys);
    var r := AddPendingPayments(s, patientId, ids);
    forall k | k in r.appointments && r.appointments[k].patientId == Some(patientId)
               && r.appointments[k].status != Cancelled
      ensures HasOnePayment(r, k)
    {
      var i :| 0 <= i < |ids| && ids[i] == k;
      var j :| j in r.payments && r.payments[j].appointmentId == k;
      assert forall j' | j' in r.payments && r.payments[j'].appointmentId == k :: j' == j;
    }
    r
  }

  // ---------------------------------------------------------------------------------------
  // The patient's payment page (PatientController.Payment, read half)

  /** The payment belongs to one of the patient's appointments. */
  predicate OfPatient(s: Store, patientId: int, p: Payment) {
    p.appointmentId in s.appointments && s.appointments[p.appointmentId].patientId == Some(patientId)
  }

  /** OrderByDescending(p => p.PaidAt ?? DateTime.MinValue).ThenByDescending(p => p.PaymentId). */
  function PaidAtKey(p: Payment): Key {
    var paidAt: int := p.paidAt.GetOr(0);
    Key(-paidAt, -p.id)
  }

  function Mine(s: Store, patientId: int): Payment -> bool {
    p => OfPatient(s, patientId, p)
  }

  /** The payments of the patient's appointments, latest paid first, unpaid ones last. */
  function PatientPayments(s: Store, patientId: int): (r: seq<Payment>)
    ensures SortedBy(r, PaidAtKey)
  {
    SortBy(Filter(Rows(s.payments), Mine(s, patientId)), PaidAtKey)
  }

  /** The page lists exactly the payments of the patient's appointments. */
  lemma PatientPaymentsMembers(s: Store, patientId: int)
    ensures forall p :: p in PatientPayments(s, patientId) <==> p in s.payments.Values && OfPatient(s, patientId, p)
  {
    RowsMembers(s.payments);
  }

  function IsStatus(st: PaymentStatus): Payment -> bool {
    (p: Payment) => p.status == st
  }

  function OneIf(st: PaymentStatus): Payment -> int {
    Indicator(IsStatus(st))
  }

  function AmountIf(st: PaymentStatus): Payment -> int {
    Masked(IsStatus(st), (p: Payment) => p.amount)
  }

  /** What the payment page shows: the list and the four figures above it. */
  datatype PaymentSummary = PaymentSummary(
    payments: seq<Payment>,
    pendingCount: nat,
    completedCount: nat,
    totalAmount: int,
    pendingAmount: int)

  function Summarize(xs: seq<Payment>): PaymentSummary {
    PaymentSummary(
      xs,
      Count(xs, IsStatus(PaymentStatus.Pending)),
      Count(xs, IsStatus(PaymentStatus.Completed)),
      Sum(xs, AmountIf(PaymentStatus.Completed)),
      Sum(xs, AmountIf(PaymentStatus.Pending)))
  }

  /** A per-payment quantity summed over the patient's rows of the whole payments table. */
  function PatientTotal(s: Store, patientId: int, f: Payment -> int): int {
    Sum(Rows(s.payments), Masked(Mine(s, patientId), f))
  }

  /** Summing over the page's list is summing over the patient's rows of the table. */
  lemma PatientListTotal(s: Store, patientId: int, f: Payment -> int)
    ensures Sum(PatientPayments(s, patientId), f) == PatientTotal(s, patientId, f)
  {
    var rows := Rows(s.payments);
    SumPermutation(PatientPayments(s, patientId), Filter(rows, Mine(s, patientId)), f);
    SumFilter(rows, Mine(s, patientId), f);
  }

  /** Counting a status over the page's list is counting it over the patient's rows of the table. */
  lemma PatientListCount(s: Store, patientId: int, st: PaymentStatus)
    ensures Count(PatientPayments(s, patientId), IsStatus(st)) == PatientTotal(s, patientId, OneIf(st))
  {
    var xs := PatientPayments(s, patientId);
    CountIsSum(xs, IsStatus(st));
    PatientListTotal(s, patientId, OneIf(st));
  }

  /**
   * PatientController.Payment: an unknown patient is sent to Login; otherwise the missing
   * Pending payments are created and the patient's payments are listed and summarised.
   */
  function PaymentPage(s: Store, patientId: int): (r: Option<(Store, PaymentSummary)>)
    requires Valid(s)
    ensures r.None? <==> patientId !in s.patients
    ensures r.Some? ==> Valid(r.value.0) && r.value.0.appointments == s.appointments
  {
    if patientId !in s.patients then None
    else
      var s' := EnsurePendingPayments(s, patientId);
      Some((s', Summarize(PatientPayments(s', patientId))))
  }

  /**
   * The page's figures agree with the payments table after the lazy creation: the counts
   * and amounts are the patient's Pending/Completed rows of the table.
   */
  lemma PaymentPageFigures(s: Store, patientId: int)
    requires Valid(s) && patientId in s.patients
    ensures var (s', v) := PaymentPage(s, patientId).value;
      && s' == EnsurePendingPayments(s, patientId)
      && SortedBy(v.payments, PaidAtKey)
      && v.pendingCount == PatientTotal(s', patientId, OneIf(PaymentStatus.Pending))
      && v.completedCount == PatientTotal(s', patientId, OneIf(PaymentStatus.Completed))
      && v.totalAmount == PatientTotal(s', patientId, AmountIf(PaymentStatus.Completed))
      && v.pendingAmount == PatientTotal(s', patientId, AmountIf(PaymentStatus.Pending))
  {
    var s' := EnsurePendingPayments(s, patientId);
    PatientListCount(s', patientId, PaymentStatus.Pending);
    PatientListCount(s', patientId, PaymentStatus.Completed);
    PatientListTotal(s', patientId, AmountIf(PaymentStatus.Completed));
    PatientListTotal(s', patientId, AmountIf(PaymentStatus.Pending));
  }

  /** Every non-cancelled appointment of the patient shows up on the page with its payment. */
  lemma PaymentPageListsEveryAppointment(s: Store, patientId: int, k: int)
    requires Valid(s) && patientId in s.patients
    requires k in s.appointments && s.appointments[k].patientId == Some(patientId)
    requires s.appointments[k].status != Cancelled
    ensures exists p :: p in PaymentPage(s, patientId).value.1.payments && p.appointmentId == k
  {
    var s' := EnsurePendingPayments(s, patientId);
    assert HasOnePayment(s', k);
    var j :| j in s'.payments && s'.payments[j].appointmentId == k;
    assert s'.payments[j] in s'.payments.Values;
    PatientPaymentsMembers(s', patientId);
  }

  // ---------------------------------------------------------------------------------------
  // Settling a payment (AdminController.ApprovePayment / RejectPayment)

  /** The transaction id an approval stores: the one supplied, or ADMIN_<timestamp>_<id>. */
  function ApprovalTransactionId(paymentId: int, supplied: Option<string>, stamp: Stamp): string {
    if !NullOrEmpty(supplied) then supplied.value else "ADMIN_" + stamp + "_" + DecimalString(paymentId)
  }

  /** The transaction id a rejection stores: the reason with a prefix, or REJECTED_BY_ADMIN_<timestamp>. */
  function RejectionTransactionId(reason: Option<string>, stamp: Stamp): string {
    if !NullOrEmpty(reason) then "REJECTED: " + reason.value else "REJECTED_BY_ADMIN_" + stamp
  }

  /** A generated approval id always fits the 100-character column. */
  lemma GeneratedApprovalIdFits(paymentId: int, supplied: Option<string>, stamp: Stamp)
    requires IsInt32(paymentId) && NullOrEmpty(supplied)
    ensures Utf16Length(ApprovalTransactionId(paymentId, supplied, stamp)) <= MaxTransactionIdLength
  {
    var id := ApprovalTransactionId(paymentId, supplied, stamp);
    Int32DecimalLength(paymentId);
    assert InBmp(id) by {
      var digits := DecimalString(paymentId);
      assert id == "ADMIN_" + stamp + "_" + digits;
      forall i | 0 <= i < |id|
        ensures id[i] as int <= 0xFFFF
      {
        if 21 <= i {
          assert id[i] == digits[i - 21];
        }
      }
    }
    Utf16LengthInBmp(id);
  }

  /** The rejection marker takes the reason's code units plus ten, or 32 when no reason is given. */
  lemma RejectionIdLength(reason: Option<string>, stamp: Stamp)
    ensures Utf16Length(RejectionTransactionId(reason, stamp))
            == if NullOrEmpty(reason) then 32 else |"REJECTED: "| + Utf16Length(reason.value)
  {
    if NullOrEmpty(reason) {
      var id := "REJECTED_BY_ADMIN_" + stamp;
      assert InBmp(id) by {
        forall i | 0 <= i < |id|
          ensures id[i] as int <= 0xFFFF
        {
          if 18 <= i {
            assert id[i] == stamp[i - 18];
          }
        }
      }
      Utf16LengthInBmp(id);
    } else {
      Utf16LengthAppend("REJECTED: ", reason.value);
      Utf16LengthInBmp("REJECTED: ");
    }
  }

  /** Generated approval ids name their payment: two payments never get the same one. */
  lemma GeneratedApprovalIdsDistinct(a: int, b: int, stamp: Stamp, stamp': Stamp)
    requires a != b
    ensures ApprovalTransactionId(a, None, stamp) != ApprovalTransactionId(b, None, stamp')
  {
    var x, y := ApprovalTransactionId(a, None, stamp), ApprovalTransactionId(b, None, stamp');
    assert x[21..] == DecimalString(a);
    assert y[21..] == DecimalString(b);
    DecimalRoundTrip(a);
    DecimalRoundTrip(b);
  }

  /**
   * AdminController.ApprovePayment: only a Pending payment is approved; it becomes Completed,
   * paid now, with the supplied or a generated transaction id. A transaction id too long for
   * its column makes SaveChanges throw, which the action catches, leaving the table as it was.
   * The UPDATE sends only the columns the action modified, so no other width is checked.
   */
  function ApprovePayment(s: Store, id: int, transactionId: Option<string>, clock: Clock): (r: (Outcome, Store))
    ensures r.0 == NotFound <==> id !in s.payments
    ensures r.0 == NotPending <==> id in s.payments && s.payments[id].status != PaymentStatus.Pending
    ensures r.0 == Error <==>
      && id in s.payments && s.payments[id].status == PaymentStatus.Pending
      && Utf16Length(ApprovalTransactionId(s.payments[id].id, transactionId, clock.stamp)) > MaxTransactionIdLength
    ensures r.0 != Done ==> r.1 == s
    ensures r.0 == Done ==> id in s.payments && id in r.1.payments
    ensures r.0 == Done ==>
      var (before, after) := (s.payments[id], r.1.payments[id]);
      && r.1 == s.(payments := s.payments[id := after])
      && after.status == PaymentStatus.Completed
      && after.paidAt == Some(clock.now)
      && after.transactionId == Some(ApprovalTransactionId(before.id, transactionId, clock.stamp))
      && after == before.(status := after.status, paidAt := after.paidAt, transactionId := after.transactionId)
    ensures Valid(s) ==> Valid(r.1)
  {
    if id !in s.payments then (NotFound, s)
    else
      var p := s.payments[id];
      if p.status != PaymentStatus.Pending then (NotPending, s)
      else
        var txn := ApprovalTransactionId(p.id, transactionId, clock.stamp);
        var p' := p.(status := PaymentStatus.Completed, paidAt := Some(clock.now), transactionId := Some(txn));
        if !FitsWidth(p'.transactionId, MaxTransactionIdLength) then (Error, s)
        else (Done, s.(payments := s.payments[id := p']))
  }

  /** With a 32-bit payment id, approval of a valid store fails only on a supplied transaction id over 100 characters. */
  lemma ApproveFailsOnlyOnLongTransactionId(s: Store, id: int, transactionId: Option<string>, clock: Clock)
    requires Valid(s) && IsInt32(id)
    ensures ApprovePayment(s, id, transactionId, clock).0 == Error <==>
      && id in s.payments && s.payments[id].status == PaymentStatus.Pending
      && !NullOrEmpty(transactionId) && Utf16Length(transactionId.value) > MaxTransactionIdLength
  {
    if id in s.payments && NullOrEmpty(transactionId) {
      GeneratedApprovalIdFits(s.payments[id].id, transactionId, clock.stamp);
    }
  }

  /**
   * AdminController.RejectPayment: only a Pending payment is rejected; it becomes Failed,
   * keeps its PaidAt, and records the reason (or a generated marker) as its transaction id.
   * Only the modified columns are written, so only the marker's width can make the save fail.
   */
  function RejectPayment(s: Store, id: int, reason: Option<string>, clock: Clock): (r: (Outcome, Store))
    ensures r.0 == NotFound <==> id !in s.payments
    ensures r.0 == NotPending <==> id in s.payments && s.payments[id].status != PaymentStatus.Pending
    ensures r.0 == Error <==>
      && id in s.payments && s.payments[id].status == PaymentStatus.Pending
      && !NullOrEmpty(reason) && Utf16Length(reason.value) > MaxTransactionIdLength - |"REJECTED: "|
    ensures r.0 != Done ==> r.1 == s
    ensures r.0 == Done ==> id in s.payments && id in r.1.payments
    ensures r.0 == Done ==>
      var (before, after) := (s.payments[id], r.1.payments[id]);
      && r.1 == s.(payments := s.payments[id := after])
      && after.status == PaymentStatus.Failed
      && after.transactionId == Some(RejectionTransactionId(reason, clock.stamp))
      && after == before.(status := after.status, transactionId := after.transactionId)
    ensures Valid(s) ==> Valid(r.1)
  {
    if id !in s.payments then (NotFound, s)
    else
      var p := s.payments[id];
      if p.status != PaymentStatus.Pending then (NotPending, s)
      else
        var p' := p.(status := PaymentStatus.Failed, transactionId := Some(RejectionTransactionId(reason, clock.stamp)));
        RejectionIdLength(reason, clock.stamp);
        if !FitsWidth(p'.transactionId, MaxTransactionIdLength) then (Error, s)
        else (Done, s.(payments := s.payments[id := p']))
  }

  /** The two admin actions on payments, as a request log. */
  datatype PaymentAction =
    | Approve(id: int, transactionId: Option<string>, clock: Clock)
    | Reject(id: int, reason: Option<string>, clock: Clock)

  function Apply(s: Store, action: PaymentAction): Store {
    match action
    case Approve(id, transactionId, clock) => ApprovePayment(s, id, transactionId, clock).1
    case Reject(id, reason, clock) => RejectPayment(s, id, reason, clock).1
  }

  function Run(s: Store, actions: seq<PaymentAction>): Store
    decreases |actions|
  {
    if actions == [] then s else Run(Apply(s, actions[0]), actions[1..])
  }

  /** A settled (Completed or Failed) payment never changes again under any sequence of admin actions. */
  lemma {:induction false} SettledPaymentsAreFinal(s: Store, actions: seq<PaymentAction>, id: int)
    requires id in s.payments && s.payments[id].status != PaymentStatus.Pending
    ensures id in Run(s, actions).payments && Run(s, actions).payments[id] == s.payments[id]
    decreases |actions|
  {
    if actions != [] {
      var s' := Apply(s, actions[0]);
      assert id in s'.payments && s'.payments[id] == s.payments[id];
      SettledPaymentsAreFinal(s', actions[1..], id);
    }
  }

  /** The dashboard's revenue: the amounts of all Completed payments. */
  function Revenue(s: Store): int {
    Sum(Rows(s.payments), AmountIf(PaymentStatus.Completed))
  }

  /** An approval adds exactly the payment's amount to the revenue. */
  lemma ApproveAddsToRevenue(s: Store, id: int, transactionId: Option<string>, clock: Clock)
    requires ApprovePayment(s, id, transactionId, clock).0 == Done
    ensures Revenue(ApprovePayment(s, id, transactionId, clock).1) == Revenue(s) + s.payments[id].amount
  {
    var after := ApprovePayment(s, id, transactionId, clock).1.payments[id];
    SumRowsUpdate(s.payments, id, after, AmountIf(PaymentStatus.Completed));
  }

  /** A rejection leaves the revenue as it was. */
  lemma RejectKeepsRevenue(s: Store, id: int, reason: Option<string>, clock: Clock)
    ensures Revenue(RejectPayment(s, id, reason, clock).1) == Revenue(s)
  {
    var r := RejectPayment(s, id, reason, clock);
    if r.0 == Done {
      SumRowsUpdate(s.payments, id, r.1.payments[id], AmountIf(PaymentStatus.Completed));
    }
  }

  /** A payment carries a PaidAt exactly when it is Completed. */
  predicate PaidAtMatchesStatus(s: Store) {
    forall k | k in s.payments :: s.payments[k].paidAt.Some? <==> s.payments[k].status == PaymentStatus.Completed
  }

  /** The lazy creation keeps PaidAt in step with the status: new payments are Pending and unpaid. */
  lemma CreationKeepsPaidAtInStep(s: Store, patientId: int)
    requires Valid(s) && PaidAtMatchesStatus(s)
    ensures PaidAtMatchesStatus(EnsurePendingPayments(s, patientId))
  {
    var r := EnsurePendingPayments(s, patientId);
    forall k | k in r.payments
      ensures r.payments[k].paidAt.Some? <==> r.payments[k].status == PaymentStatus.Completed
    {
      if k !in s.payments {
        assert r.payments[k].paidAt.None? && r.payments[k].status == PaymentStatus.Pending;
      }
    }
  }

  /** Approval sets PaidAt with Completed; rejection leaves PaidAt unset with Failed. */
  lemma SettlementKeepsPaidAtInStep(s: Store, action: PaymentAction)
    requires PaidAtMatchesStatus(s)
    ensures PaidAtMatchesStatus(Apply(s, action))
  {
    match action
    case Approve(id, transactionId, clock) =>
      var r := ApprovePayment(s, id, transactionId, clock);
      if r.0 == Done {
        assert forall k | k in r.1.payments && k != id :: r.1.payments[k] == s.payments[k];
      }
    case Reject(id, reason, clock) =>
      var r := RejectPayment(s, id, reason, clock);
      if r.0 == Done {
        assert forall k | k in r.1.payments && k != id :: r.1.payments[k] == s.payments[k];
      }
  }

  // ---------------------------------------------------------------------------------------
  // The admin's payment list (AdminController.Payments)

  function StatusName(st: PaymentStatus): string {
    match st
    case Pending => "pending"
    case Completed => "completed"
    case Failed => "failed"
  }

  /** The status filter a `status` query value selects, case-insensitively; anything else lists all. */
  function StatusFilter(status: string): (r: Option<PaymentStatus>)
    ensures forall st :: r == Some(st) <==> Lower(status) == StatusName(st)
  {
    var l := Lower(status);
    if l == "pending" then Some(PaymentStatus.Pending)
    else if l == "completed" then Some(PaymentStatus.Completed)
    else if l == "failed" then Some(PaymentStatus.Failed)
    else None
  }

  function Selected(filter: Option<PaymentStatus>): Payment -> bool {
    (p: Payment) => filter.None? || p.status == filter.value
  }

  /** OrderByDescending(p => p.PaymentId). */
  function IdDescending(p: Payment): Key {
    Key(-p.id, 0)
  }

  /** The payments the admin's list shows for a `status` query value, newest id first. */
  function PaymentsByStatus(s: Store, status: string): (r: seq<Payment>)
    ensures SortedBy(r, IdDescending)
  {
    SortBy(Filter(Rows(s.payments), Selected(StatusFilter(status))), IdDescending)
  }

  /** The list holds exactly the payments the filter selects. */
  lemma PaymentsByStatusMembers(s: Store, status: string)
    ensures forall p :: p in PaymentsByStatus(s, status) <==> p in s.payments.Values && Selected(StatusFilter(status))(p)
  {
    RowsMembers(s.payments);
  }

  /** Every payment has exactly one of the three statuses. */
  lemma {:induction false} StatusCountsAddUp(xs: seq<Payment>)
    ensures Count(xs, IsStatus(PaymentStatus.Pending)) + Count(xs, IsStatus(PaymentStatus.Completed))
            + Count(xs, IsStatus(PaymentStatus.Failed)) == |xs|
  {
    if xs != [] {
      StatusCountsAddUp(xs[1..]);
    }
  }

  /** The list filtered by a status holds as many payments as the table has with that status. */
  lemma StatusListLength(s: Store, status: string, st: PaymentStatus)
    requires StatusFilter(status) == Some(st)
    ensures |PaymentsByStatus(s, status)| == Count(Rows(s.payments), IsStatus(st))
  {
    FilterCongruent(Rows(s.payments), Selected(Some(st)), IsStatus(st));
    FilterLength(Rows(s.payments), IsStatus(st));
  }

  /** A value that selects no status lists every payment. */
  lemma UnfilteredListLength(s: Store, status: string)
    requires StatusFilter(status).None?
    ensures |PaymentsByStatus(s, status)| == |s.payments|
  {
    FilterCongruent(Rows(s.payments), Selected(None), (p: Payment) => true);
    FilterAll(Rows(s.payments));
  }

  /**
   * Whatever the spelling, the Pending, Completed and Failed lists together are as long as the
   * unfiltered list, which lists every payment.
   */
  lemma PaymentListsPartition(s: Store, pending: string, completed: string, failed: string, all: string)
    requires StatusFilter(pending) == Some(PaymentStatus.Pending)
    requires StatusFilter(completed) == Some(PaymentStatus.Completed)
    requires StatusFilter(failed) == Some(PaymentStatus.Failed)
    requires StatusFilter(all).None?
    ensures |PaymentsByStatus(s, pending)| + |PaymentsByStatus(s, completed)| + |PaymentsByStatus(s, failed)|
            == |PaymentsByStatus(s, all)| == |s.payments|
  {
    StatusListLength(s, pending, PaymentStatus.Pending);
    StatusListLength(s, completed, PaymentStatus.Completed);
    StatusListLength(s, failed, PaymentStatus.Failed);
    UnfilteredListLength(s, all);
    StatusCountsAddUp(Rows(s.payments));
  }

  /** Each status's own name ("pending", "completed", "failed") selects that status. */
  lemma StatusNameSelects(st: PaymentStatus)
    ensures StatusFilter(StatusName(st)) == Some(st)
  {
    match st
    case Pending => LowerOfLowercase("pending");
    case Completed => LowerOfLowercase("completed");
    case Failed => LowerOfLowercase("failed");
  }

  /** The default query value "all" selects no status. */
  lemma AllSelectsEverything()
    ensures StatusFilter("all").None?
  {
    LowerOfLowercase("all");
  }

  /** Letter case never matters: any query value selects what its lower-cased form selects. */
  lemma StatusFilterIgnoresCase(status: string)
    ensures StatusFilter(status) == StatusFilter(Lower(status))
  {
    LowerIdempotent(status);
  }

  /** Letter case does not matter: "PENDING" selects what "pending" selects. */
  lemma StatusQueryIgnoresCase()
    ensures StatusFilter("PENDING") == Some(PaymentStatus.Pending)
  {
    assert Lower("PENDING") == "pending";
  }
}
