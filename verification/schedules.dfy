/**
 * SchedulesController.Save: a doctor has at most one schedule. Saving updates the doctor's
 * schedule in place when there is one and inserts the submitted one otherwise. The action
 * catches nothing: a failing SaveChanges reaches the caller as an error and nothing is stored.
 */
module Schedules {
  import opened Wrappers
  import opened Tables
  import opened Models
  import opened Db

  /** The doctor's schedule key: FirstOrDefault(s => s.DoctorId == doctorId), taken as the least key. */
  function ScheduleOf(s: Store, doctorId: int): (r: Option<int>)
    ensures r.Some? ==> r.value in s.schedules && s.schedules[r.value].doctorId == doctorId
    ensures r.None? <==> forall k | k in s.schedules :: s.schedules[k].doctorId != doctorId
  {
    var ks := set k | k in s.schedules && s.schedules[k].doctorId == doctorId;
    if ks == {} then
      assert forall k | k in s.schedules :: s.schedules[k].doctorId != doctorId by {
        forall k | k in s.schedules ensures s.schedules[k].doctorId != doctorId {
          assert k !in ks;
        }
      }
      None
    else Some(Least(ks))
  }

  /** The doctor has exactly one schedule. */
  predicate HasOneSchedule(s: Store, doctorId: int) {
    exists k | k in s.schedules :: s.schedules[k].doctorId == doctorId
      && forall k' | k' in s.schedules && s.schedules[k'].doctorId == doctorId :: k' == k
  }

  /** The existing row takes the submitted day, hours and capacity; its key and doctor stay. */
  function Overwrite(existing: Schedule, submitted: Schedule): (r: Schedule)
    ensures r.id == existing.id && r.doctorId == existing.doctorId
    ensures r.dayOfWeek == submitted.dayOfWeek && r.maxPatientPerDay == submitted.maxPatientPerDay
    ensures r.startTime == submitted.startTime && r.endTime == submitted.endTime
  {
    existing.(dayOfWeek := submitted.dayOfWeek, startTime := submitted.startTime,
              endTime := submitted.endTime, maxPatientPerDay := submitted.maxPatientPerDay)
  }

  /**
   * SchedulesController.Save. An insert fails when the form carries a ScheduleId (an explicit
   * value for an identity column, refused before any value is drawn) or names a doctor that
   * does not exist (the foreign key). SQL Server draws the identity value before it checks the
   * foreign key and never hands a drawn value out again, so the second failure uses one up.
   */
  function SaveSchedule(s: Store, submitted: Schedule): (r: (Outcome, Store))
    ensures r.0 == Done || r.0 == Error
    ensures r.0 == Error <==>
      && ScheduleOf(s, submitted.doctorId).None?
      && (submitted.id != 0 || submitted.doctorId !in s.doctors)
    ensures r.0 == Error && submitted.id != 0 ==> r.1 == s
    ensures r.0 == Error && submitted.id == 0 ==> r.1 == s.(nextScheduleId := s.nextScheduleId + 1)
    ensures ScheduleOf(s, submitted.doctorId).Some? ==>
      var k := ScheduleOf(s, submitted.doctorId).value;
      r == (Done, s.(schedules := s.schedules[k := Overwrite(s.schedules[k], submitted)]))
    ensures ScheduleOf(s, submitted.doctorId).None? && r.0 == Done ==>
      && r.1.nextScheduleId == s.nextScheduleId + 1
      && r.1.schedules == s.schedules[s.nextScheduleId := submitted.(id := s.nextScheduleId)]
    ensures r.0 == Done ==> r.1 == s.(schedules := r.1.schedules, nextScheduleId := r.1.nextScheduleId)
    ensures r.0 == Done ==>
      exists k | k in r.1.schedules ::
        && r.1.schedules[k].doctorId == submitted.doctorId
        && r.1.schedules[k].dayOfWeek == submitted.dayOfWeek
        && r.1.schedules[k].maxPatientPerDay == submitted.maxPatientPerDay
        && r.1.schedules[k].startTime == submitted.startTime
        && r.1.schedules[k].endTime == submitted.endTime
    ensures r.0 == Done && IdentitiesAhead(s) ==>
      forall k | k in s.schedules && s.schedules[k].doctorId != submitted.doctorId ::
        k in r.1.schedules && r.1.schedules[k] == s.schedules[k]
  {
    match ScheduleOf(s, submitted.doctorId)
    case Some(k) =>
      var schedules := s.schedules[k := Overwrite(s.schedules[k], submitted)];
      assert k in schedules && schedules[k].doctorId == submitted.doctorId;
      (Done, s.(schedules := schedules))
    case None =>
      if submitted.id != 0 then (Error, s)
      else if submitted.doctorId !in s.doctors then (Error, s.(nextScheduleId := s.nextScheduleId + 1))
      else
        var id := s.nextScheduleId;
        var schedules := s.schedules[id := submitted.(id := id)];
        assert id in schedules && schedules[id].doctorId == submitted.doctorId;
        (Done, s.(schedules := schedules, nextScheduleId := id + 1))
  }

  /** Saving keeps the store's invariants, in particular one schedule per doctor. */
  lemma SaveKeepsValid(s: Store, submitted: Schedule)
    requires Valid(s)
    ensures Valid(SaveSchedule(s, submitted).1)
  {
    var r := SaveSchedule(s, submitted);
    if r.0 == Done {
      match ScheduleOf(s, submitted.doctorId)
      case Some(k) =>
        assert r.1.schedules == s.schedules[k := Overwrite(s.schedules[k], submitted)];
        assert r.1.schedules.Keys == s.schedules.Keys;
      case None =>
        var id := s.nextScheduleId;
        assert r.1.schedules == s.schedules[id := submitted.(id := id)];
        assert id !in s.schedules;
    }
  }

  /** After a successful save the doctor has exactly one schedule. */
  lemma SaveLeavesOneSchedule(s: Store, submitted: Schedule)
    requires Valid(s) && SaveSchedule(s, submitted).0 == Done
    ensures HasOneSchedule(SaveSchedule(s, submitted).1, submitted.doctorId)
  {
    var r := SaveSchedule(s, submitted);
    SaveKeepsValid(s, submitted);
    var k :| k in r.1.schedules && r.1.schedules[k].doctorId == submitted.doctorId;
    assert forall k' | k' in r.1.schedules && r.1.schedules[k'].doctorId == submitted.doctorId :: k' == k;
  }

  /** Submitting the same form twice stores what submitting it once stores. */
  lemma SaveTwiceIsSaveOnce(s: Store, submitted: Schedule)
    requires Valid(s) && SaveSchedule(s, submitted).0 == Done
    ensures var once := SaveSchedule(s, submitted).1;
            SaveSchedule(once, submitted) == (Done, once)
  {
    var once := SaveSchedule(s, submitted).1;
    var k :| k in once.schedules && once.schedules[k].doctorId == submitted.doctorId;
    assert ScheduleOf(once, submitted.doctorId) == Some(k);
    assert once.schedules[k := Overwrite(once.schedules[k], submitted)] == once.schedules;
  }
}
