/**
 * An appointment: an immutable closed interval of instants. Instants are whole seconds since the
 * epoch and a duration is a signed number of seconds.
 */
module Appointments {
  import opened Wrappers
  import opened Errors

  type Instant = int
  type Duration = int

  datatype Interval = Interval(start: Instant, end: Instant)

  /** Every appointment starts no later than it ends; the constructor refuses anything else. */
  type Appointment = a: Interval | a.start <= a.end witness Interval(0, 0)

  /** The throwing constructor: an appointment that starts after it ends is refused. */
  function Make(start: Instant, end: Instant): (r: Result<Appointment, Error>)
    ensures r.Failure? <==> start > end
    ensures r.Failure? ==> r.error == InvalidInterval
    ensures r.Success? ==> r.value.start == start && r.value.end == end
  {
    if start > end then Failure(InvalidInterval) else Success(Interval(start, end))
  }

  /** Whether the instant lies in the appointment, both ends included. */
  predicate Includes(a: Appointment, t: Instant)
  {
    !(t > a.end || t < a.start)
  }

  /** An appointment includes exactly the instants from its start to its end. */
  lemma IncludesIffWithin(a: Appointment, t: Instant)
    ensures Includes(a, t) <==> a.start <= t <= a.end
    ensures Includes(a, a.start) && Includes(a, a.end)
  {
  }

  /**
   * Whether the other appointment's start or end lies in this one. The test looks one way only:
   * an appointment strictly inside `a` is caught, one that strictly contains `a` is not.
   */
  predicate Overlaps(a: Appointment, other: Appointment)
  {
    Includes(a, other.start) || Includes(a, other.end)
  }

  /** `Overlaps` holds exactly when one of the other appointment's bounds falls within this one. */
  lemma OverlapsIffBoundWithin(a: Appointment, o: Appointment)
    ensures Overlaps(a, o) <==> (a.start <= o.start <= a.end || a.start <= o.end <= a.end)
  {
  }

  /**
   * The test is not symmetric: an appointment strictly containing another overlaps it, but not
   * the other way round.
   */
  lemma OverlapsNotSymmetric(inner: Appointment, outer: Appointment)
    requires outer.start < inner.start && inner.end < outer.end
    ensures Overlaps(outer, inner) && !Overlaps(inner, outer)
  {
  }

  /** Every appointment overlaps itself, and so does any appointment with the same start. */
  lemma SameStartOverlaps(a: Appointment, b: Appointment)
    requires a.start == b.start
    ensures Overlaps(a, b) && Overlaps(b, a)
  {
  }

  /** The same appointment moved by a duration; the original value is untouched. */
  function Shifted(a: Appointment, d: Duration): (r: Appointment)
    ensures r.start == a.start + d && r.end == a.end + d
    ensures r.end - r.start == a.end - a.start
  {
    Interval(a.start + d, a.end + d)
  }

  /** Shifting twice is shifting once by the sum of the durations. */
  lemma ShiftedTwice(a: Appointment, d: Duration, e: Duration)
    ensures Shifted(Shifted(a, d), e) == Shifted(a, d + e)
  {
  }

  /** `Instant.compareTo` on the starts: -1, 0 or 1; the ends are ignored. */
  function CompareTo(a: Appointment, o: Appointment): (c: int)
    ensures c == 0 <==> a.start == o.start
    ensures c < 0 <==> a.start < o.start
    ensures c > 0 <==> a.start > o.start
    ensures -1 <= c <= 1
  {
    if a.start < o.start then -1 else if a.start == o.start then 0 else 1
  }

  /** The order is antisymmetric, as `Comparable` requires. */
  lemma CompareToAntisymmetric(a: Appointment, o: Appointment)
    ensures CompareTo(a, o) == -CompareTo(o, a)
  {
  }

  /** A copy has the same bounds (the value is immutable, so it is the same appointment). */
  function Copy(a: Appointment): (r: Appointment)
    ensures r.start == a.start && r.end == a.end
  {
    Interval(a.start, a.end)
  }

  /**
   * The serialized record: the two bounds under the keys "start" and "end", each written by the
   * timestamp formatter `format`.
   */
  function Serialize(a: Appointment, format: Instant -> string): (m: map<string, string>)
    ensures m.Keys == {"start", "end"}
    ensures m["start"] == format(a.start) && m["end"] == format(a.end)
  {
    map["start" := format(a.start), "end" := format(a.end)]
  }

  /**
   * Reads a serialized record back with the timestamp parser `parse` (None when the text does
   * not parse). A missing field or unparsable text is a malformed record; bounds in the wrong
   * order fail as in the constructor.
   */
  function Deserialize(m: map<string, string>, parse: string -> Option<Instant>): (r: Result<Appointment, Error>)
    ensures r.Success? ==>
              && "start" in m && "end" in m
              && parse(m["start"]) == Some(r.value.start)
              && parse(m["end"]) == Some(r.value.end)
    ensures ("start" !in m || "end" !in m) ==> r == Failure(MalformedRecord)
  {
    if "start" !in m || "end" !in m then Failure(MalformedRecord)
    else match (parse(m["start"]), parse(m["end"]))
      case (Some(s), Some(e)) => Make(s, e)
      case _ => Failure(MalformedRecord)
  }

  /** Reading back a serialized appointment gives the same appointment, when the parser undoes the formatter. */
  lemma DeserializeSerialize(a: Appointment, format: Instant -> string, parse: string -> Option<Instant>)
    requires forall t :: parse(format(t)) == Some(t)
    ensures Deserialize(Serialize(a, format), parse) == Success(a)
  {
    var m := Serialize(a, format);
    assert parse(m["start"]) == Some(a.start);
    assert parse(m["end"]) == Some(a.end);
  }
}
