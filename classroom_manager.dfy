/**
 * The registry of classrooms, keyed by id, and the schedule drafts operators are editing, keyed
 * by the operator's name.
 */
module ClassroomManagers {
  import opened Wrappers
  import opened Errors
  import opened Appointments
  import opened ScheduleSpec
  import opened Schedules
  import opened Classrooms

  /**
   * A classroom under construction. Only its schedule is consulted by the registry; the builder
   * is not part of this model beyond that field, which starts unset.
   */
  class Draft {
    var schedule: Schedule?

    constructor ()
      ensures schedule == null
    {
      schedule := null;
    }
  }

  class ClassroomManager {
    var classrooms: map<string, Classroom>
    var drafts: map<string, Draft>

    /** Every classroom's schedule and every set draft schedule is well ordered. */
    ghost predicate Valid()
      reads this, classrooms.Values, drafts.Values
      reads set c | c in classrooms.Values :: c.schedule
      reads set d | d in drafts.Values && d.schedule != null :: d.schedule
    {
      && (forall c | c in classrooms.Values :: c.schedule.Valid())
      && (forall d | d in drafts.Values && d.schedule != null :: d.schedule.Valid())
    }

    /** The objects `repeat` may change: the draft stored under the name, if any. */
    function DraftAt(name: string): (r: set<Draft>)
      reads this
      ensures r == if name in drafts then {drafts[name]} else {}
    {
      if name in drafts then {drafts[name]} else {}
    }

    constructor ()
      ensures Valid() && classrooms == map[] && drafts == map[]
    {
      classrooms := map[];
      drafts := map[];
    }

    /** Stores the classroom under its id; the answer is the classroom that was there, or null. */
    method AddClassroom(c: Classroom) returns (prev: Classroom?)
      requires Valid() && c.Valid()
      modifies this
      ensures Valid()
      ensures prev == if c.id in old(classrooms) then old(classrooms)[c.id] else null
      ensures classrooms == old(classrooms)[c.id := c] && drafts == old(drafts)
    {
      prev := if c.id in classrooms then classrooms[c.id] else null;
      classrooms := classrooms[c.id := c];
    }

    /** Deletes the id; the answer is the classroom that was removed, or null. */
    method RemoveClassroom(id: string) returns (prev: Classroom?)
      requires Valid()
      modifies this
      ensures Valid()
      ensures prev == if id in old(classrooms) then old(classrooms)[id] else null
      ensures classrooms == old(classrooms) - {id} && drafts == old(drafts)
      ensures id !in classrooms
    {
      prev := if id in classrooms then classrooms[id] else null;
      classrooms := classrooms - {id};
    }

    /** Whether any classroom is registered. */
    function AnyRegistered(): (r: bool)
      reads this
      ensures r <==> exists id :: id in classrooms
    {
      classrooms != map[]
    }

    /** The number of registered classrooms. */
    function Count(): (r: nat)
      reads this
      ensures r == |classrooms.Keys|
    {
      |classrooms|
    }

    /** There is a registered classroom exactly when the count is positive. */
    lemma AnyRegisteredIffCount()
      ensures AnyRegistered() <==> Count() > 0
    {
      if AnyRegistered() {
        var id :| id in classrooms;
        assert id in classrooms.Keys;
      }
    }

    /**
     * The classrooms whose schedule includes the instant. A classroom whose schedule starts after
     * the instant makes the schedule query, and so the whole call, fail.
     */
    method GetInSession(now: Instant) returns (r: Result<set<Classroom>, Error>)
      requires Valid()
      ensures r.Failure? <==> exists c :: c in classrooms.Values && c.InSession(now).Failure?
      ensures r.Failure? ==> r.error == IndexOutOfRange
      ensures r.Success? ==> forall c :: c in r.value <==> c in classrooms.Values && c.InSession(now) == Success(true)
    {
      var keys := classrooms.Keys;
      var found: set<Classroom> := {};
      while keys != {}
        invariant keys <= classrooms.Keys
        invariant forall k | k in classrooms && k !in keys :: classrooms[k].InSession(now).Success?
        invariant forall k | k in classrooms && k !in keys ::
                    (classrooms[k] in found <==> classrooms[k].InSession(now) == Success(true))
        invariant forall c | c in found :: c in classrooms.Values && c.InSession(now) == Success(true)
        decreases keys
      {
        var k :| k in keys;
        var s := classrooms[k].InSession(now);
        if s.Failure? {
          assert classrooms[k] in classrooms.Values;
          return Failure(s.error);
        }
        if s.value {
          found := found + {classrooms[k]};
        }
        keys := keys - {k};
      }
      forall c | c in classrooms.Values
        ensures c.InSession(now).Success? && (c in found <==> c.InSession(now) == Success(true))
      {
        var k :| k in classrooms && classrooms[k] == c;
      }
      return Success(found);
    }

    /** Whether the operator has a draft. */
    function HasDraft(name: string): (r: bool)
      reads this
      ensures r <==> DraftAt(name) != {}
    {
      name in drafts
    }

    /** Installs a fresh draft for the operator and answers the draft it replaced, or null. */
    method StartDraft(name: string) returns (prev: Draft?)
      requires Valid()
      modifies this
      ensures Valid()
      ensures prev == if name in old(drafts) then old(drafts)[name] else null
      ensures name in drafts && fresh(drafts[name]) && drafts[name].schedule == null
      ensures drafts == old(drafts)[name := drafts[name]] && classrooms == old(classrooms)
    {
      prev := if name in drafts then drafts[name] else null;
      var d := new Draft();
      drafts := drafts[name := d];
    }

    /** The operator's draft, or null. */
    function GetDraft(name: string): (r: Draft?)
      reads this
      ensures r != null <==> HasDraft(name)
      ensures r != null ==> r in DraftAt(name)
    {
      if name in drafts then drafts[name] else null
    }

    /**
     * `repeat(name, d, c)`: a missing draft is a null reference. A draft without a schedule, or
     * with more than one appointment, is left alone and the answer is false. Otherwise the
     * draft's schedule is replaced by its repetition and the answer is true; a repetition that
     * fails leaves the draft alone and passes the failure on.
     */
    method Repeat(name: string, period: Duration, count: int) returns (r: Result<bool, Error>)
      requires Valid()
      modifies DraftAt(name)
      ensures Valid()
      ensures name !in drafts ==> r == Failure(NullReference)
      ensures name in drafts ==>
                var s := old(drafts[name].schedule);
                if s == null || |s.appointments| > 1 then r == Success(false) && drafts[name].schedule == s
                else
                  var spec := Repeated(s.appointments, period, count);
                  && (spec.Failure? ==> r == Failure(spec.error) && drafts[name].schedule == s)
                  && (spec.Success? ==>
                        r == Success(true) && fresh(drafts[name].schedule)
                        && drafts[name].schedule.appointments == spec.value)
    {
      if name !in drafts {
        return Failure(NullReference);
      }
      var d := drafts[name];
      var s := d.schedule;
      if s == null || !s.IsContinuous() {
        return Success(false);
      }
      var rep := s.Repeat(period, count);
      if rep.Failure? {
        return Failure(rep.error);
      }
      d.schedule := rep.value;
      return Success(true);
    }

    /**
     * `repeat(name, d, c, index)`: a missing draft is a null reference; no schedule or a negative
     * index gives false. A schedule with at most one appointment accepts only index 1, which
     * repeats the whole schedule. Otherwise the appointment at the index is replaced by its run.
     */
    method RepeatAt(name: string, period: Duration, count: int, index: int) returns (r: Result<bool, Error>)
      requires Valid()
      modifies DraftAt(name)
      ensures Valid()
      ensures name !in drafts ==> r == Failure(NullReference)
      ensures name in drafts ==>
                var s := old(drafts[name].schedule);
                if s == null || index < 0 || (|s.appointments| <= 1 && index != 1) then
                  r == Success(false) && drafts[name].schedule == s
                else
                  var spec := if |s.appointments| <= 1 then Repeated(s.appointments, period, count)
                              else RepeatedComponent(s.appointments, period, count, index);
                  && (spec.Failure? ==> r == Failure(spec.error) && drafts[name].schedule == s)
                  && (spec.Success? ==>
                        r == Success(true) && fresh(drafts[name].schedule)
                        && drafts[name].schedule.appointments == spec.value)
    {
      if name !in drafts {
        return Failure(NullReference);
      }
      var d := drafts[name];
      var s := d.schedule;
      if s == null {
        return Success(false);
      }
      if index < 0 {
        return Success(false);
      }
      if s.IsContinuous() {
        if index == 1 {
          r := Repeat(name, period, count);
          return;
        } else {
          return Success(false);
        }
      }
      var rep := s.RepeatComponent(period, count, index);
      if rep.Failure? {
        return Failure(rep.error);
      }
      d.schedule := rep.value;
      return Success(true);
    }
  }
}
