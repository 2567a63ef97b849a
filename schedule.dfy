/**
 * A schedule: a mutable list of appointments kept sorted by start, to which appointments are
 * added one at a time with an overlap check.
 */
module Schedules {
  import opened Wrappers
  import opened Errors
  import opened Appointments
  import opened ScheduleSpec

  class Schedule {
    var appointments: seq<Appointment>

    /** Every schedule is sorted by strictly increasing start and no appointment overlaps an earlier one. */
    ghost predicate Valid()
      reads this
    {
      WellOrdered(appointments)
    }

    /** The (private) constructor: an empty schedule. */
    constructor ()
      ensures Valid() && appointments == []
    {
      appointments := [];
    }

    /** `single`: a schedule holding just the one appointment. */
    static method Single(a: Appointment) returns (s: Schedule)
      ensures fresh(s) && s.Valid() && s.appointments == [a]
    {
      s := new Schedule();
      var o := s.Add(a);
      assert o.Pass?;
    }

    /**
     * `add`: refused when the new appointment overlaps one already present, leaving the list as
     * it was; otherwise appended and the list re-sorted by start.
     */
    method Add(a: Appointment) returns (o: Outcome<Error>)
      requires Valid()
      modifies this
      ensures Valid()
      ensures o.Pass? <==> !Conflicts(old(appointments), a)
      ensures o.Fail? ==> o.error == OverlappingAppointment && appointments == old(appointments)
      ensures o.Pass? ==> appointments == Insert(old(appointments), a)
      ensures o.Pass? ==> multiset(appointments) == multiset(old(appointments)) + multiset{a}
    {
      var i := 0;
      while i < |appointments|
        invariant 0 <= i <= |appointments|
        invariant forall k :: 0 <= k < i ==> !Overlaps(a, appointments[k])
      {
        if Overlaps(a, appointments[i]) {
          return Fail(OverlappingAppointment);
        }
        i := i + 1;
      }
      InsertWellOrdered(appointments, a);
      InsertContents(appointments, a);
      // appending and then sorting by start with a stable sort yields the ordered insertion
      appointments := Insert(appointments, a);
      return Pass;
    }

    /**
     * `addRepeating`: a count below 1 is refused before anything changes; otherwise the
     * appointment and its shifts by 1, 2, ... periods are added in turn, stopping at the first
     * that is refused and keeping those already added.
     */
    method AddRepeating(a: Appointment, period: Duration, count: int) returns (o: Outcome<Error>)
      requires Valid()
      modifies this
      ensures Valid()
      ensures var spec := RepeatingFrom(old(appointments), a, period, count);
              (o.Pass? <==> spec.Success?) &&
              (o.Pass? ==> appointments == spec.value) &&
              (o.Fail? ==> o.error == spec.error)
      ensures count < 1 ==> appointments == old(appointments)
      ensures count >= 1 ==> appointments == AddAll(old(appointments), Run(a, period, count)).state
    {
      if count < 1 {
        return Fail(InvalidArgument);
      }
      ghost var s0 := appointments;
      ghost var run := Run(a, period, count);
      var cur := a;
      assert run[..0] == [];
      o := AddStep(cur, s0, run, 0);
      if o.Fail? {
        return;
      }
      var i := 0;
      while i < count - 1
        invariant 0 <= i <= count - 1
        invariant cur == run[i]
        invariant o.Pass? && Valid()
        invariant AddAll(s0, run[..i + 1]) == Replay(appointments, i + 1)
      {
        RunNext(a, period, count, i);
        cur := Shifted(cur, period);
        o := AddStep(cur, s0, run, i + 1);
        if o.Fail? {
          return;
        }
        i := i + 1;
      }
      AddAllWhole(s0, run);
    }

    /** `repeating`: a new schedule filled by `addRepeating`; it fails when that does. */
    static method Repeating(a: Appointment, period: Duration, count: int) returns (r: Result<Schedule, Error>)
      ensures var spec := RepeatingFrom([], a, period, count);
              (r.Success? <==> spec.Success?) &&
              (r.Success? ==> fresh(r.value) && r.value.Valid() && r.value.appointments == spec.value) &&
              (r.Failure? ==> r.error == spec.error)
    {
      var s := new Schedule();
      var o := s.AddRepeating(a, period, count);
      if o.Fail? {
        return Failure(o.error);
      }
      return Success(s);
    }

    /**
     * `combine`: every appointment of every input, in order, added to a new schedule; the first
     * refused appointment fails the whole combination.
     */
    static method Combine(inputs: seq<Schedule>) returns (r: Result<Schedule, Error>)
      ensures var spec := Combined(old(ContentsOf(inputs)));
              (r.Success? <==> spec.Success?) &&
              (r.Success? ==> fresh(r.value) && r.value.Valid() && r.value.appointments == spec.value) &&
              (r.Failure? ==> r.error == spec.error)
    {
      ghost var parts := ContentsOf(inputs);
      ghost var all := Concat(parts);
      var out := new Schedule();
      var i := 0;
      ghost var done := 0;
      while i < |inputs|
        invariant 0 <= i <= |inputs|
        invariant fresh(out) && out.Valid()
        invariant done == |Concat(parts[..i])| <= |all|
        invariant AddAll([], all[..done]) == Replay(out.appointments, done)
      {
        assert inputs[i].appointments == old(inputs[i].appointments) == parts[i];
        var o := out.MergePart(inputs[i], parts, i, done);
        if o.Fail? {
          return Failure(o.error);
        }
        done := done + |parts[i]|;
        i := i + 1;
      }
      assert parts[..i] == parts;
      CombinedComplete(parts, out.appointments);
      return Success(out);
    }

    /**
     * One round of `combine`: the appointments of part `i` replayed onto this schedule, which holds
     * the replay of the parts before it. Either the replay of the parts up to `i` is complete, or
     * the whole combination has failed.
     */
    method MergePart(other: Schedule, ghost parts: seq<seq<Appointment>>, ghost i: nat, ghost done: nat)
      returns (o: Outcome<Error>)
      requires Valid() && i < |parts| && other.appointments == parts[i]
      requires done == |Concat(parts[..i])| <= |Concat(parts)|
      requires AddAll([], Concat(parts)[..done]) == Replay(appointments, done)
      modifies this
      ensures Valid()
      ensures o.Pass? ==> done + |parts[i]| == |Concat(parts[..i + 1])| <= |Concat(parts)|
      ensures o.Pass? ==> AddAll([], Concat(parts)[..done + |parts[i]|]) == Replay(appointments, done + |parts[i]|)
      ensures o.Fail? ==> o.error == OverlappingAppointment && Combined(parts) == Failure(OverlappingAppointment)
    {
      CombineOne(parts, i, done, appointments);
      ghost var before := appointments;
      o := AddAllFrom(other);
      if o.Fail? {
        CombinedStopped(parts, appointments, done + AddAll(before, parts[i]).added);
      }
    }

    /**
     * `includes`: false on an empty schedule, true on an exact start, otherwise the answer of the
     * appointment with the latest start before the instant; an instant before every start is an
     * index error.
     */
    function Includes(t: Instant): (r: Result<bool, Error>)
      requires Valid()
      reads this
      ensures appointments == [] ==> r == Success(false)
      ensures r.Failure? <==> appointments != [] && t < appointments[0].start
      ensures r.Failure? ==> r.error == IndexOutOfRange
      ensures r == Success(true) ==> exists i :: 0 <= i < |appointments| && Appointments.Includes(appointments[i], t)
      ensures (exists i :: 0 <= i < |appointments| && appointments[i].start == t) ==> r == Success(true)
    {
      IncludesAtFailsIff(appointments, t);
      var r := IncludesAt(appointments, t);
      if r == Success(true) then IncludesAtSound(appointments, t); r else r
    }

    /** `isContinuous`: at most one appointment. */
    function IsContinuous(): (r: bool)
      reads this
      ensures r <==> |appointments| <= 1
    {
      |appointments| <= 1
    }

    /**
     * `repeat`: each appointment expanded into its own repeating schedule, and those combined
     * in schedule order into a new schedule; the receiver is unchanged.
     */
    method Repeat(period: Duration, count: int) returns (r: Result<Schedule, Error>)
      requires Valid()
      ensures var spec := Repeated(appointments, period, count);
              (r.Success? <==> spec.Success?) &&
              (r.Success? ==> fresh(r.value) && r.value.Valid() && r.value.appointments == spec.value) &&
              (r.Failure? ==> r.error == spec.error)
    {
      var src := appointments;
      var expanded: seq<Schedule> := [];
      ghost var runs: seq<seq<Appointment>> := [];
      var i := 0;
      while i < |src|
        invariant 0 <= i <= |src| && |runs| == i && |expanded| == i
        invariant forall k :: 0 <= k < i ==> RepeatingFrom([], src[k], period, count) == Success(runs[k])
        invariant forall k :: 0 <= k < i ==> expanded[k].appointments == runs[k]
      {
        var one := Repeating(src[i], period, count);
        if one.Failure? {
          RepeatedExpansionFails(src, period, count, i);
          return Failure(one.error);
        }
        expanded := expanded + [one.value];
        runs := runs + [one.value.appointments];
        i := i + 1;
      }
      RepeatedExpansionsCombine(src, period, count, runs);
      assert ContentsOf(expanded) == runs;
      r := Combine(expanded);
    }

    /**
     * `repeatComponent`: an index outside the schedule is refused; otherwise a new schedule holds
     * the other appointments plus the run of the one at the index. The receiver is unchanged.
     */
    method RepeatComponent(period: Duration, count: int, index: int) returns (r: Result<Schedule, Error>)
      requires Valid()
      ensures var spec := RepeatedComponent(appointments, period, count, index);
              (r.Success? <==> spec.Success?) &&
              (r.Success? ==> fresh(r.value) && r.value.Valid() && r.value.appointments == spec.value) &&
              (r.Failure? ==> r.error == spec.error)
    {
      if index < 0 || index >= |appointments| {
        return Failure(IndexOutOfRange);
      }
      var out := new Schedule();
      out.appointments := appointments;
      var toRepeat := out.appointments[index];
      RemoveAtWellOrdered(out.appointments, index);
      out.appointments := RemoveAt(out.appointments, index);
      var o := out.AddRepeating(toRepeat, period, count);
      if o.Fail? {
        return Failure(o.error);
      }
      return Success(out);
    }

    /** `cancel`: removes the appointment at a 0-based index; an index outside the schedule is refused. */
    method Cancel(index: int) returns (o: Outcome<Error>)
      requires Valid()
      modifies this
      ensures Valid()
      ensures o.Pass? <==> 0 <= index < |old(appointments)|
      ensures o.Fail? ==> o.error == IndexOutOfRange && appointments == old(appointments)
      ensures o.Pass? ==> appointments == RemoveAt(old(appointments), index)
    {
      if index < 0 || index >= |appointments| {
        return Fail(IndexOutOfRange);
      }
      RemoveAtWellOrdered(appointments, index);
      appointments := RemoveAt(appointments, index);
      return Pass;
    }

    /** `overlaps` between schedules: some pair of appointments overlaps in either direction. */
    method OverlapsWith(other: Schedule) returns (r: bool)
      ensures r <==> SchedulesOverlap(appointments, other.appointments)
    {
      var i := 0;
      while i < |appointments|
        invariant 0 <= i <= |appointments|
        invariant forall a, b :: 0 <= a < i && 0 <= b < |other.appointments| ==>
                    !(Overlaps(appointments[a], other.appointments[b]) || Overlaps(other.appointments[b], appointments[a]))
      {
        var j := 0;
        while j < |other.appointments|
          invariant 0 <= j <= |other.appointments|
          invariant forall b :: 0 <= b < j ==>
                      !(Overlaps(appointments[i], other.appointments[b]) || Overlaps(other.appointments[b], appointments[i]))
        {
          if Overlaps(appointments[i], other.appointments[j]) || Overlaps(other.appointments[j], appointments[i]) {
            return true;
          }
          j := j + 1;
        }
        i := i + 1;
      }
      return false;
    }

    /**
     * One step of `add` replayed over `xs` from `s0`, once the first `i` were added: offering
     * `x`, which is `xs[i]`, either extends the replay or ends it with the schedule as it was.
     */
    method AddStep(x: Appointment, ghost s0: seq<Appointment>, ghost xs: seq<Appointment>, ghost i: nat) returns (o: Outcome<Error>)
      requires Valid() && i < |xs| && x == xs[i] && AddAll(s0, xs[..i]) == Replay(appointments, i)
      modifies this
      ensures Valid()
      ensures o.Pass? ==> AddAll(s0, xs[..i + 1]) == Replay(appointments, i + 1)
      ensures o.Fail? ==> o.error == OverlappingAppointment && AddAll(s0, xs) == Replay(appointments, i)
    {
      ReplayOne(s0, xs, i, appointments);
      o := Add(x);
    }

    /**
     * Merging another schedule into this one: its appointments are added in its order, stopping
     * at the first refused one and keeping those already added.
     */
    method AddAllFrom(other: Schedule) returns (o: Outcome<Error>)
      requires Valid()
      modifies this
      ensures Valid()
      ensures var rep := AddAll(old(appointments), old(other.appointments));
              appointments == rep.state && (o.Pass? <==> rep.added == |old(other.appointments)|)
      ensures o.Fail? ==> o.error == OverlappingAppointment
    {
      ghost var s0 := appointments;
      var src := other.appointments;
      var i := 0;
      assert src[..0] == [];
      while i < |src|
        invariant 0 <= i <= |src|
        invariant Valid()
        invariant AddAll(s0, src[..i]) == Replay(appointments, i)
      {
        o := AddStep(src[i], s0, src, i);
        if o.Fail? {
          return;
        }
        i := i + 1;
      }
      AddAllWhole(s0, src);
      return Pass;
    }

    /** `serialize`: one record per appointment, in schedule order. */
    function Serialize(format: Instant -> string): (r: seq<map<string, string>>)
      reads this
      ensures |r| == |appointments|
      ensures forall i :: 0 <= i < |r| ==> r[i] == Appointments.Serialize(appointments[i], format)
    {
      SerializeAll(appointments, format)
    }

    /**
     * `deserialize`: each record read and added to a new schedule in turn; the first record that
     * does not read or is refused fails the whole load.
     */
    static method Deserialize(records: seq<map<string, string>>, parse: string -> Option<Instant>) returns (r: Result<Schedule, Error>)
      ensures var spec := Load(records, parse);
              (r.Success? <==> spec.Success?) &&
              (r.Success? ==> fresh(r.value) && r.value.Valid() && r.value.appointments == spec.value) &&
              (r.Failure? ==> r.error == spec.error)
    {
      var out := new Schedule();
      var i := 0;
      while i < |records|
        invariant 0 <= i <= |records|
        invariant fresh(out) && out.Valid()
        invariant Load(records[..i], parse) == Success(out.appointments)
      {
        assert records[..i + 1][..i] == records[..i];
        var a := Appointments.Deserialize(records[i], parse);
        assert a.Failure? ==> Load(records[..i + 1], parse) == Failure(a.error);
        if a.Failure? {
          LoadStopped(records, parse, i + 1);
          return Failure(a.error);
        }
        var o := out.Add(a.value);
        if o.Fail? {
          LoadStopped(records, parse, i + 1);
          return Failure(o.error);
        }
        i := i + 1;
      }
      assert records[..i] == records;
      return Success(out);
    }
  }

  /** The appointment lists of several schedules, in order. */
  function ContentsOf(inputs: seq<Schedule>): (r: seq<seq<Appointment>>)
    reads inputs
    ensures |r| == |inputs|
    ensures forall k :: 0 <= k < |inputs| ==> r[k] == inputs[k].appointments
  {
    if inputs == [] then [] else ContentsOf(inputs[..|inputs| - 1]) + [inputs[|inputs| - 1].appointments]
  }
}
