/**
 * The schedule editing commands: removing an appointment by its 1-based number, adding a daily or
 * weekly run of appointments, adding a single appointment, and the conflict rule every addition
 * goes through. Date parsing is left out; the commands receive instants directly.
 */
module ScheduleCommands {
  import opened Wrappers
  import opened Errors
  import opened Appointments
  import opened ScheduleSpec
  import opened Schedules
  import opened Classrooms
  import opened ClassroomManagers

  /** One day, in seconds. */
  const DAY: int := 86400
  /** The period of the daily preset. */
  const DAILY: Duration := DAY
  /** The period of the weekly preset. */
  const WEEKLY: Duration := 7 * DAY
  /** The largest number of appointments one periodic request may create. */
  const APPOINTMENT_CREATION_LIMIT: int := 30

  const INT_MIN: int := -0x8000_0000
  const TWO_TO_32: int := 0x1_0000_0000

  /** Integer division rounding toward zero, as on Java's `long`. */
  function TruncDiv(a: int, b: int): (q: int)
    requires b != 0
    ensures var rem := a - q * b;
            (if b > 0 then -b < rem < b else b < rem < -b) && (rem == 0 || (rem > 0 <==> a > 0))
  {
    if a >= 0 then (if b > 0 then a / b else -(a / -b))
    else (if b > 0 then -((-a) / b) else (-a) / (-b))
  }

  /** The 32-bit two's-complement value of an integer, as `intValue` of a `long` keeps. */
  function ToInt32(x: int): (r: int)
    ensures INT_MIN <= r < -INT_MIN
    ensures (x - r) % TWO_TO_32 == 0
    ensures INT_MIN <= x < -INT_MIN ==> r == x
  {
    (x - INT_MIN) % TWO_TO_32 + INT_MIN
  }

  /**
   * The number of appointments a periodic request asks for: the time from the first start to
   * the last start, in milliseconds, divided by the period, truncated, then cut to 32 bits.
   */
  function PeriodicCount(firstStart: Instant, lastStart: Instant, period: Duration): (r: int)
    requires period > 0
    ensures INT_MIN <= r < -INT_MIN
  {
    ToInt32(TruncDiv((lastStart - firstStart) * 1000, period * 1000))
  }

  /** Euclidean division is determined by any quotient whose remainder lies in range. */
  lemma DivUnique(a: int, b: int, q: int)
    requires b > 0 && 0 <= a - q * b < b
    ensures a / b == q
  {
    var q0 := a / b;
    assert a == q0 * b + a % b;
    var k := q - q0;
    assert k * b == q * b - q0 * b;
    assert -k * b == -(k * b);
    MulAtLeastWhen(k, b);
    MulAtLeastWhen(-k, b);
  }

  /** A factor of at least 1 does not shrink a non-negative number. */
  lemma MulAtLeastWhen(k: int, p: int)
    ensures k >= 1 && p >= 0 ==> k * p >= p
  {
  }

  /** Scaling both operands by the same positive factor leaves the quotient alone. */
  lemma DivScale(a: nat, b: int, c: int)
    requires b > 0 && c > 0
    ensures (a * c) / (b * c) == a / b
  {
    var q, rem := a / b, a % b;
    assert a * c == q * (b * c) + rem * c;
    assert (b - rem) * c > 0;
    DivUnique(a * c, b * c, q);
  }

  /** Counting in milliseconds gives the same count as counting in seconds. */
  lemma PeriodicCountSeconds(firstStart: Instant, lastStart: Instant, period: Duration)
    requires period > 0
    ensures PeriodicCount(firstStart, lastStart, period) == ToInt32(TruncDiv(lastStart - firstStart, period))
  {
    var d := lastStart - firstStart;
    if d >= 0 {
      DivScale(d, period, 1000);
    } else {
      DivScale(-d, period, 1000);
      assert -(d * 1000) == (-d) * 1000;
    }
  }

  /**
   * Whole periods between the starts give exactly that many appointments, so the last date
   * itself is never included. In particular equal dates ask for none.
   */
  lemma PeriodicCountWhole(firstStart: Instant, k: nat, period: Duration)
    requires period > 0 && k <= APPOINTMENT_CREATION_LIMIT
    ensures PeriodicCount(firstStart, firstStart + k * period, period) == k
  {
    PeriodicCountSeconds(firstStart, firstStart + k * period, period);
    DivUnique(k * period, period, k);
  }

  /** A request whose last date is its first date asks for zero appointments, which `repeating` refuses. */
  lemma PeriodicSameDateRefused(a: Appointment, period: Duration)
    requires period > 0
    ensures PeriodicCount(a.start, a.start, period) == 0
    ensures RepeatingFrom([], a, period, PeriodicCount(a.start, a.start, period)) == Failure(InvalidArgument)
  {
    PeriodicCountWhole(a.start, 0, period);
  }

  /** A last start before the first one, by less than 2^31 seconds, asks for no appointment at all. */
  lemma PeriodicBackwardsRefused(firstStart: Instant, lastStart: Instant, period: Duration)
    requires period > 0 && lastStart < firstStart && firstStart - lastStart < 0x8000_0000
    ensures PeriodicCount(firstStart, lastStart, period) <= 0
  {
    PeriodicCountSeconds(firstStart, lastStart, period);
    var gap := firstStart - lastStart;
    DivAtMost(gap, period);
    assert TruncDiv(lastStart - firstStart, period) == -(gap / period);
  }

  /** A quotient by a positive divisor lies between zero and the non-negative dividend. */
  lemma DivAtMost(a: int, b: int)
    requires a >= 0 && b > 0
    ensures 0 <= a / b <= a
  {
    var q := a / b;
    assert q * b <= a;
    MulAtLeastWhen(b, q);
  }

  /** The end of a single appointment: an end before the start means the end falls on the next day. */
  function SingleEnd(start: Instant, end: Instant): (r: Instant)
    ensures r == end || r == end + DAY
    ensures start <= r <==> start - end <= DAY
  {
    if start > end then end + DAY else end
  }

  /**
   * An end at or after the start is kept; an end less than a day before the start is moved one
   * day on, which makes the appointment valid.
   */
  lemma SingleEndValid(start: Instant, end: Instant)
    ensures start <= end ==> SingleEnd(start, end) == end
    ensures start > end ==> SingleEnd(start, end) == end + DAY
    ensures Make(start, SingleEnd(start, end)).Success? <==> start - end <= DAY
  {
  }

  /**
   * The conflict rule: the candidate may be added exactly when it overlaps neither the target
   * schedule nor the schedule of any registered classroom.
   */
  ghost predicate Admits(manager: ClassroomManager, target: seq<Appointment>, candidate: seq<Appointment>)
    reads manager, manager.classrooms.Values
    reads set c | c in manager.classrooms.Values :: c.schedule
  {
    && !SchedulesOverlap(target, candidate)
    && forall c | c in manager.classrooms.Values :: !SchedulesOverlap(c.schedule.appointments, candidate)
  }

  /** The schedule of the classroom with this id, as a frame. */
  function TargetFrame(manager: ClassroomManager, id: string): (r: set<Schedule>)
    reads manager, manager.classrooms.Values
    ensures r == if id in manager.classrooms then {manager.classrooms[id].schedule} else {}
  {
    if id in manager.classrooms then {manager.classrooms[id].schedule} else {}
  }

  /** The loop over the registered classrooms: whether none of their schedules overlaps the candidate. */
  method NoRegisteredConflict(manager: ClassroomManager, candidate: Schedule) returns (free: bool)
    ensures free <==> forall c | c in manager.classrooms.Values ::
                        !SchedulesOverlap(c.schedule.appointments, candidate.appointments)
  {
    var keys := manager.classrooms.Keys;
    while keys != {}
      invariant keys <= manager.classrooms.Keys
      invariant forall k | k in manager.classrooms && k !in keys ::
                  !SchedulesOverlap(manager.classrooms[k].schedule.appointments, candidate.appointments)
      decreases keys
    {
      var k :| k in keys;
      var overlapping := manager.classrooms[k].schedule.OverlapsWith(candidate);
      if overlapping {
        assert manager.classrooms[k] in manager.classrooms.Values;
        return false;
      }
      keys := keys - {k};
    }
    forall c | c in manager.classrooms.Values
      ensures !SchedulesOverlap(c.schedule.appointments, candidate.appointments)
    {
      var k :| k in manager.classrooms && manager.classrooms[k] == c;
    }
    return true;
  }

  /**
   * `attemptToAddSchedule`: refuses a candidate that overlaps the target or any registered
   * classroom, changing nothing; otherwise adds every candidate appointment to the target, which
   * then cannot fail.
   */
  method AttemptToAddSchedule(manager: ClassroomManager, first: Schedule, second: Schedule) returns (r: bool)
    requires manager.Valid() && first.Valid() && second.Valid()
    modifies first
    ensures manager.Valid() && first.Valid()
    ensures r == old(Admits(manager, first.appointments, second.appointments))
    ensures !r ==> first.appointments == old(first.appointments)
    ensures r ==> first.appointments == AddAll(old(first.appointments), old(second.appointments)).state
    ensures r ==> multiset(first.appointments) == multiset(old(first.appointments)) + multiset(old(second.appointments))
  {
    var overlapping := first.OverlapsWith(second);
    if overlapping {
      return false;
    }
    var free := NoRegisteredConflict(manager, second);
    if !free {
      return false;
    }
    ghost var s0, xs := first.appointments, second.appointments;
    MergeCompletes(s0, xs);
    AddAllContents(s0, xs);
    assert xs[..|xs|] == xs;
    var added := first.AddAllFrom(second);
    assert added.Pass?;
    return true;
  }

  /**
   * Removing appointment number `n` (counted from 1) of a classroom: an unknown class or an empty
   * schedule is refused before anything is cancelled; otherwise appointment `n - 1` is cancelled,
   * and a number outside the schedule is refused.
   */
  method RemoveAppointment(manager: ClassroomManager, id: string, n: int) returns (r: bool)
    requires manager.Valid()
    modifies TargetFrame(manager, id)
    ensures manager.Valid()
    ensures id !in manager.classrooms ==> !r
    ensures id in manager.classrooms ==>
              var s := manager.classrooms[id].schedule;
              && (r <==> old(s.appointments) != [] && 1 <= n <= |old(s.appointments)|)
              && (r ==> s.appointments == RemoveAt(old(s.appointments), n - 1))
              && (!r ==> s.appointments == old(s.appointments))
  {
    if id !in manager.classrooms {
      return false;
    }
    var s := manager.classrooms[id].schedule;
    if s.appointments == [] {
      return false;
    }
    var o := s.Cancel(n - 1);
    return o.Pass?;
  }

  /**
   * Adding a daily or weekly run: an unknown class, a first start after the first end, or more
   * than the creation limit is refused. A count below 1 makes `repeating` throw, which the
   * command does not catch. A run that overlaps itself is refused; the rest goes through the
   * conflict rule.
   */
  method AddPeriodic(manager: ClassroomManager, id: string, firstStart: Instant, firstEnd: Instant,
                     lastStart: Instant, period: Duration) returns (r: Result<bool, Error>)
    requires manager.Valid() && period > 0
    modifies TargetFrame(manager, id)
    ensures manager.Valid()
    ensures id !in manager.classrooms || firstStart > firstEnd ==> r == Success(false)
    ensures id in manager.classrooms && firstStart <= firstEnd ==>
              var count := PeriodicCount(firstStart, lastStart, period);
              var s := manager.classrooms[id].schedule;
              var run := RepeatingFrom([], Interval(firstStart, firstEnd), period, count);
              && (count > APPOINTMENT_CREATION_LIMIT ==> r == Success(false))
              && (count < 1 ==> r == Failure(InvalidArgument))
              && (1 <= count <= APPOINTMENT_CREATION_LIMIT && run.Failure? ==> r == Success(false))
              && (1 <= count <= APPOINTMENT_CREATION_LIMIT && run.Success? ==>
                    r == Success(old(Admits(manager, s.appointments, run.value)))
                    && (r.value ==> s.appointments == AddAll(old(s.appointments), run.value).state))
    ensures !(r == Success(true)) && id in manager.classrooms ==>
              manager.classrooms[id].schedule.appointments == old(manager.classrooms[id].schedule.appointments)
  {
    if id !in manager.classrooms {
      return Success(false);
    }
    var classroom := manager.classrooms[id];
    if firstStart > firstEnd {
      return Success(false);
    }
    var count := PeriodicCount(firstStart, lastStart, period);
    if count > APPOINTMENT_CREATION_LIMIT {
      return Success(false);
    }
    var toAdd := Schedule.Repeating(Interval(firstStart, firstEnd), period, count);
    if toAdd.Failure? {
      if toAdd.error == InvalidArgument {
        return Failure(InvalidArgument);
      }
      return Success(false);
    }
    assert classroom in manager.classrooms.Values;
    var ok := AttemptToAddSchedule(manager, classroom.schedule, toAdd.value);
    return Success(ok);
  }

  /**
   * Adding one appointment: an unknown class is refused; an end before the start is moved a day
   * on, and an appointment still ending before it starts makes the constructor throw, which the
   * command does not catch. The appointment then goes through the conflict rule.
   */
  method AddSingle(manager: ClassroomManager, id: string, start: Instant, end: Instant) returns (r: Result<bool, Error>)
    requires manager.Valid()
    modifies TargetFrame(manager, id)
    ensures manager.Valid()
    ensures id !in manager.classrooms ==> r == Success(false)
    ensures id in manager.classrooms ==>
              var s := manager.classrooms[id].schedule;
              var a := Make(start, SingleEnd(start, end));
              && (a.Failure? ==> r == Failure(InvalidInterval))
              && (a.Success? ==>
                    r == Success(old(Admits(manager, s.appointments, [a.value])))
                    && (r.value ==> s.appointments == Insert(old(s.appointments), a.value)))
    ensures !(r == Success(true)) && id in manager.classrooms ==>
              manager.classrooms[id].schedule.appointments == old(manager.classrooms[id].schedule.appointments)
  {
    if id !in manager.classrooms {
      return Success(false);
    }
    var classroom := manager.classrooms[id];
    var a := Make(start, SingleEnd(start, end));
    if a.Failure? {
      return Failure(a.error);
    }
    var toAdd := Schedule.Single(a.value);
    assert classroom in manager.classrooms.Values;
    ghost var before := classroom.schedule.appointments;
    var ok := AttemptToAddSchedule(manager, classroom.schedule, toAdd);
    if ok {
      AddAllStep(before, [a.value], 0);
      assert [a.value][..0] == [];
      AddAllWhole(before, [a.value]);
    }
    return Success(ok);
  }
}
