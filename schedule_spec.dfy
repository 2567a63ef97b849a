/**
 * The value-level meaning of a schedule: a sequence of appointments and what adding to it,
 * repeating it, querying it and reloading it produce. The `Schedule` class is proved against
 * these functions.
 */
module ScheduleSpec {
  import opened Wrappers
  import opened Errors
  import opened Appointments

  /** Starts strictly increase along the sequence. */
  predicate StartsAscending(s: seq<Appointment>)
  {
    forall i, j :: 0 <= i < j < |s| ==> s[i].start < s[j].start
  }

  /**
   * No appointment overlaps (in the sense of `Overlaps`) one that comes before it. Adding the
   * appointments one by one in this order therefore never fails.
   */
  predicate NoLaterOverlapsEarlier(s: seq<Appointment>)
  {
    forall i, j :: 0 <= i < j < |s| ==> !Overlaps(s[j], s[i])
  }

  /**
   * The invariant every schedule keeps: sorted by strictly increasing start, and each
   * appointment ends before every later one starts or after it ends. This is weaker than
   * pairwise disjointness: a short appointment strictly inside an earlier long one is allowed.
   */
  predicate WellOrdered(s: seq<Appointment>)
  {
    StartsAscending(s) && NoLaterOverlapsEarlier(s)
  }

  /** Pairwise disjoint, as a conflict-free timetable would be. */
  predicate Disjoint(s: seq<Appointment>)
  {
    forall i, j :: 0 <= i < j < |s| ==> s[i].end < s[j].start
  }

  /** The check `add` runs: the new appointment overlaps one already present. */
  predicate Conflicts(s: seq<Appointment>, a: Appointment)
  {
    exists i :: 0 <= i < |s| && Overlaps(a, s[i])
  }

  /** How many appointments start strictly before `t`. */
  function CountBefore(s: seq<Appointment>, t: Instant): (k: nat)
    ensures k <= |s|
  {
    if s == [] then 0 else (if s[0].start < t then 1 else 0) + CountBefore(s[1..], t)
  }

  /** On a sorted sequence the count is the insertion point: everything before it starts earlier, nothing after it does. */
  lemma {:induction false} CountBeforeSplit(s: seq<Appointment>, t: Instant)
    requires StartsAscending(s)
    ensures forall i :: 0 <= i < CountBefore(s, t) ==> s[i].start < t
    ensures forall i :: CountBefore(s, t) <= i < |s| ==> s[i].start >= t
  {
    if s != [] {
      var r := s[1..];
      assert StartsAscending(r);
      CountBeforeSplit(r, t);
      if |r| > 0 {
        assert s[0].start < r[0].start;
      }
      forall i | 0 <= i < CountBefore(s, t) ensures s[i].start < t {
        if i > 0 { assert s[i] == r[i - 1]; }
      }
      forall i | CountBefore(s, t) <= i < |s| ensures s[i].start >= t {
        if i > 0 { assert s[i] == r[i - 1]; }
      }
    }
  }

  /** The insertion point is determined by the split, so any index with that split is it. */
  lemma CountBeforeIs(s: seq<Appointment>, t: Instant, k: nat)
    requires StartsAscending(s) && k <= |s|
    requires forall i :: 0 <= i < k ==> s[i].start < t
    requires forall i :: k <= i < |s| ==> s[i].start >= t
    ensures CountBefore(s, t) == k
  {
    CountBeforeSplit(s, t);
    var c := CountBefore(s, t);
    assert c < |s| ==> s[c].start >= t;
    assert k < |s| ==> s[k].start >= t;
  }

  /**
   * `add` appends and then sorts by start with a stable sort; on a sorted sequence that puts the
   * new appointment after every appointment starting before it.
   */
  function Insert(s: seq<Appointment>, a: Appointment): (r: seq<Appointment>)
    ensures |r| == |s| + 1
  {
    var k := CountBefore(s, a.start);
    s[..k] + [a] + s[k..]
  }

  /** Inserting adds the one appointment and loses none. */
  lemma InsertContents(s: seq<Appointment>, a: Appointment)
    ensures multiset(Insert(s, a)) == multiset(s) + multiset{a}
  {
    var k := CountBefore(s, a.start);
    assert s == s[..k] + s[k..];
  }

  /** An appointment that starts after all others goes at the end. */
  lemma InsertLast(s: seq<Appointment>, a: Appointment)
    requires StartsAscending(s)
    requires forall i :: 0 <= i < |s| ==> s[i].start < a.start
    ensures Insert(s, a) == s + [a]
  {
    CountBeforeIs(s, a.start, |s|);
  }

  /** An appointment that does not conflict has a start of its own. */
  lemma NoConflictDistinctStart(s: seq<Appointment>, a: Appointment, i: int)
    requires !Conflicts(s, a) && 0 <= i < |s|
    ensures s[i].start != a.start
  {
    assert !Overlaps(a, s[i]);
    assert Includes(a, a.start);
  }

  /** Adding an appointment that does not conflict keeps the schedule invariant. */
  lemma InsertWellOrdered(s: seq<Appointment>, a: Appointment)
    requires WellOrdered(s) && !Conflicts(s, a)
    ensures WellOrdered(Insert(s, a))
  {
    var k := CountBefore(s, a.start);
    CountBeforeSplit(s, a.start);
    var r := Insert(s, a);
    assert r[k] == a;
    assert forall i :: 0 <= i < k ==> r[i] == s[i];
    assert forall i :: k < i < |r| ==> r[i] == s[i - 1];
    forall i | k <= i < |s| ensures a.start < s[i].start {
      NoConflictDistinctStart(s, a, i);
    }
    forall i, j | 0 <= i < j < |r| ensures r[i].start < r[j].start && !Overlaps(r[j], r[i]) {
      if j == k {
        assert !Overlaps(a, s[i]);
      } else if i == k {
        var b := s[j - 1];
        assert a.start < b.start;
        assert !Overlaps(a, b);
      }
    }
  }

  /** Two start-sorted sequences holding the same appointments begin with the same one. */
  lemma SortedSameHead(x: seq<Appointment>, y: seq<Appointment>)
    requires StartsAscending(x) && StartsAscending(y) && |x| > 0 && |y| > 0
    requires multiset(x) == multiset(y)
    ensures x[0] == y[0]
  {
    assert x[0] in multiset(y);
    var j :| 0 <= j < |y| && y[j] == x[0];
    assert y[0] in multiset(x);
    var i :| 0 <= i < |x| && x[i] == y[0];
    assert x[0].start <= x[i].start;
    assert y[0].start <= y[j].start;
  }

  /** The multiset of a non-empty sequence's tail is its multiset less the head. */
  lemma MultisetHeadTail(x: seq<Appointment>)
    requires |x| > 0
    ensures multiset(x[1..]) == multiset(x) - multiset{x[0]}
  {
    assert x == [x[0]] + x[1..];
    assert multiset(x) == multiset{x[0]} + multiset(x[1..]);
  }

  /** Two start-sorted sequences holding the same appointments are the same sequence. */
  lemma {:induction false} SortedUnique(x: seq<Appointment>, y: seq<Appointment>)
    requires StartsAscending(x) && StartsAscending(y)
    requires multiset(x) == multiset(y)
    ensures x == y
    decreases |x|
  {
    assert |y| == |multiset(y)| == |multiset(x)| == |x|;
    if x != [] {
      SortedSameHead(x, y);
      MultisetHeadTail(x);
      MultisetHeadTail(y);
      assert multiset(x[1..]) == multiset(y[1..]);
      SortedUnique(x[1..], y[1..]);
      assert x == [x[0]] + x[1..] && y == [y[0]] + y[1..];
    }
  }

  /**
   * `Insert` is what appending and re-sorting yields: any start-sorted arrangement of the old
   * appointments plus the new one is exactly `Insert`.
   */
  lemma InsertIsSorting(s: seq<Appointment>, a: Appointment, sorted: seq<Appointment>)
    requires WellOrdered(s) && !Conflicts(s, a)
    requires StartsAscending(sorted) && multiset(sorted) == multiset(s) + multiset{a}
    ensures sorted == Insert(s, a)
  {
    InsertWellOrdered(s, a);
    InsertContents(s, a);
    SortedUnique(sorted, Insert(s, a));
  }

  /**
   * The result of adding `xs` one by one to `s`: `state` is the schedule afterwards and `added`
   * how many were added before the first rejected one (all of them when `added == |xs|`).
   */
  datatype Replay = Replay(state: seq<Appointment>, added: nat)

  /** `add` applied to each appointment in turn, stopping at the first conflict with no rollback. */
  function AddAll(s: seq<Appointment>, xs: seq<Appointment>): (r: Replay)
    ensures r.added <= |xs|
    decreases |xs|
  {
    if xs == [] then Replay(s, 0) else AddNext(AddAll(s, xs[..|xs| - 1]), xs[|xs| - 1], |xs| - 1)
  }

  /** The step of the replay that offers the appointment at index `i`. */
  function AddNext(prev: Replay, x: Appointment, i: nat): (r: Replay)
    requires prev.added <= i
    ensures r.added <= i + 1
  {
    if prev.added < i || Conflicts(prev.state, x) then prev else Replay(Insert(prev.state, x), i + 1)
  }

  /** One more step of the replay, as a loop over `xs` takes it. */
  lemma AddAllStep(s: seq<Appointment>, xs: seq<Appointment>, i: nat)
    requires i < |xs| && AddAll(s, xs[..i]).added == i
    ensures var prev := AddAll(s, xs[..i]);
            AddAll(s, xs[..i + 1]) ==
              if Conflicts(prev.state, xs[i]) then prev else Replay(Insert(prev.state, xs[i]), i + 1)
  {
    assert xs[..i + 1][..i] == xs[..i];
  }

  /** Once the replay has stopped, the appointments after the rejected one change nothing. */
  lemma {:induction false} AddAllStopped(s: seq<Appointment>, xs: seq<Appointment>, i: nat, n: nat)
    requires i <= n <= |xs| && AddAll(s, xs[..i]).added < i
    ensures AddAll(s, xs[..n]) == AddAll(s, xs[..i])
    decreases n
  {
    if n > i {
      AddAllStopped(s, xs, i, n - 1);
      assert xs[..n][..n - 1] == xs[..n - 1];
    }
  }

  /** The replay of a whole sequence, once complete up to `i`, is the replay of the prefix. */
  lemma AddAllWhole(s: seq<Appointment>, xs: seq<Appointment>)
    ensures AddAll(s, xs[..|xs|]) == AddAll(s, xs)
  {
    assert xs[..|xs|] == xs;
  }

  /**
   * The step a loop replaying `add` takes: from the state after the first `i` appointments, a
   * non-conflicting next appointment extends the replay, and a conflicting one ends it.
   */
  lemma ReplayOne(s: seq<Appointment>, xs: seq<Appointment>, i: nat, prev: seq<Appointment>)
    requires i < |xs| && AddAll(s, xs[..i]) == Replay(prev, i)
    ensures !Conflicts(prev, xs[i]) ==> AddAll(s, xs[..i + 1]) == Replay(Insert(prev, xs[i]), i + 1)
    ensures Conflicts(prev, xs[i]) ==> AddAll(s, xs) == Replay(prev, i)
  {
    AddAllStep(s, xs, i);
    if Conflicts(prev, xs[i]) {
      AddAllStopped(s, xs, i + 1, |xs|);
      AddAllWhole(s, xs);
    }
  }

  /**
   * Replaying `xs` and then `ys` is replaying `ys` from where `xs` ended, when all of `xs` was
   * added.
   */
  lemma {:induction false} AddAllAppend(s: seq<Appointment>, xs: seq<Appointment>, ys: seq<Appointment>, mid: seq<Appointment>)
    requires AddAll(s, xs) == Replay(mid, |xs|)
    ensures AddAll(s, xs + ys) == Replay(AddAll(mid, ys).state, |xs| + AddAll(mid, ys).added)
    decreases |ys|
  {
    if ys == [] {
      assert xs + ys == xs;
    } else {
      var n := |ys|;
      AddAllAppend(s, xs, ys[..n - 1], mid);
      assert (xs + ys)[..|xs| + n - 1] == xs + ys[..n - 1];
      assert (xs + ys)[|xs| + n - 1] == ys[n - 1];
    }
  }

  /** Replaying `add` keeps the schedule invariant, whether or not it stops early. */
  lemma {:induction false} AddAllWellOrdered(s: seq<Appointment>, xs: seq<Appointment>)
    requires WellOrdered(s)
    ensures WellOrdered(AddAll(s, xs).state)
    decreases |xs|
  {
    if xs != [] {
      var prev := AddAll(s, xs[..|xs| - 1]);
      AddAllWellOrdered(s, xs[..|xs| - 1]);
      var x := xs[|xs| - 1];
      if !(prev.added < |xs| - 1 || Conflicts(prev.state, x)) {
        InsertWellOrdered(prev.state, x);
      }
    }
  }

  /** The schedule after the replay holds the old appointments and exactly the added prefix of `xs`. */
  lemma {:induction false} AddAllContents(s: seq<Appointment>, xs: seq<Appointment>)
    ensures multiset(AddAll(s, xs).state) == multiset(s) + multiset(xs[..AddAll(s, xs).added])
    decreases |xs|
  {
    if xs != [] {
      var n := |xs|;
      var x := xs[n - 1];
      var prev := AddAll(s, xs[..n - 1]);
      var r := AddAll(s, xs);
      AddAllContents(s, xs[..n - 1]);
      assert r == AddNext(prev, x, n - 1);
      if r == prev {
        assert xs[..n - 1][..prev.added] == xs[..prev.added];
      } else {
        assert r.state == Insert(prev.state, x) && r.added == n && prev.added == n - 1;
        InsertContents(prev.state, x);
        assert xs[..n - 1][..prev.added] == xs[..n - 1];
        MultisetSnoc(xs);
      }
    }
  }

  /** The multiset of a non-empty sequence is that of all but its last element, plus the last. */
  lemma MultisetSnoc(xs: seq<Appointment>)
    requires |xs| > 0
    ensures multiset(xs[..|xs|]) == multiset(xs[..|xs| - 1]) + multiset{xs[|xs| - 1]}
  {
    assert xs[..|xs|] == xs[..|xs| - 1] + [xs[|xs| - 1]];
  }

  /**
   * A replay that stops does so at the first conflict: the state is that of the completed
   * prefix, and the next appointment conflicts with it.
   */
  lemma {:induction false} AddAllStopsAtConflict(s: seq<Appointment>, xs: seq<Appointment>)
    requires AddAll(s, xs).added < |xs|
    ensures var r := AddAll(s, xs);
            AddAll(s, xs[..r.added]) == r && Conflicts(r.state, xs[r.added])
    decreases |xs|
  {
    var n := |xs|;
    var prev := AddAll(s, xs[..n - 1]);
    assert xs[..n - 1][..prev.added] == xs[..prev.added];
    if prev.added < n - 1 {
      AddAllStopsAtConflict(s, xs[..n - 1]);
    } else {
      assert xs[..n - 1] == xs[..prev.added];
    }
  }

  /**
   * Replaying succeeds on every appointment when none of them overlaps an existing appointment
   * and none overlaps one that comes before it in `xs`.
   */
  lemma {:induction false} AddAllCompletes(s: seq<Appointment>, xs: seq<Appointment>)
    requires NoLaterOverlapsEarlier(xs)
    requires forall j, i :: 0 <= j < |xs| && 0 <= i < |s| ==> !Overlaps(xs[j], s[i])
    ensures AddAll(s, xs).added == |xs|
    decreases |xs|
  {
    if xs != [] {
      var n := |xs|;
      var pre := xs[..n - 1];
      AddAllCompletes(s, pre);
      var prev := AddAll(s, pre);
      AddAllContents(s, pre);
      assert pre[..prev.added] == pre;
      var x := xs[n - 1];
      forall k | 0 <= k < |prev.state| ensures !Overlaps(x, prev.state[k]) {
        var y := prev.state[k];
        assert y in multiset(prev.state);
        if y in multiset(s) {
          var i :| 0 <= i < |s| && s[i] == y;
        } else {
          assert y in multiset(pre);
          var j :| 0 <= j < |pre| && pre[j] == y;
          assert xs[j] == y;
        }
      }
      assert !Conflicts(prev.state, x);
      AddAllStep(s, xs, n - 1);
    }
  }

  /** Replaying a schedule that keeps the invariant into an empty one rebuilds it exactly. */
  lemma {:induction false} ReplayWellOrdered(s: seq<Appointment>)
    requires WellOrdered(s)
    ensures AddAll([], s) == Replay(s, |s|)
    decreases |s|
  {
    if s != [] {
      var n := |s|;
      var pre := s[..n - 1];
      assert WellOrdered(pre);
      ReplayWellOrdered(pre);
      assert !Conflicts(pre, s[n - 1]);
      AddAllStep([], s, n - 1);
      InsertLast(pre, s[n - 1]);
      assert pre + [s[n - 1]] == s;
    }
  }

  /** The appointments a repeating run generates: the k-th is the first shifted k periods. */
  function Run(a: Appointment, period: Duration, count: nat): (r: seq<Appointment>)
    ensures |r| == count
  {
    seq(count, k => Shifted(a, k * period))
  }

  /** Each appointment of a run is the previous one shifted by one period. */
  lemma RunNext(a: Appointment, period: Duration, count: nat, k: nat)
    requires k + 1 < count
    ensures Run(a, period, count)[k + 1] == Shifted(Run(a, period, count)[k], period)
  {
    assert (k + 1) * period == k * period + period;
  }

  /** `addRepeating` as a value: a count below 1 fails first; otherwise the run is replayed. */
  function RepeatingFrom(s: seq<Appointment>, a: Appointment, period: Duration, count: int): (r: Result<seq<Appointment>, Error>)
  {
    if count < 1 then Failure(InvalidArgument)
    else
      var rep := AddAll(s, Run(a, period, count));
      if rep.added == count then Success(rep.state) else Failure(OverlappingAppointment)
  }

  /** A product of non-negative factors, at least one of them at least 1, is no smaller than the other. */
  lemma MulAtLeast(k: int, p: int)
    requires k >= 1 && p >= 0
    ensures k * p >= p
  {
  }

  /**
   * A repeating run from an empty schedule succeeds exactly when the count is at least 1 and
   * either there is one appointment or the period (in either direction) is longer than the
   * appointment itself.
   */
  lemma RepeatingSucceedsIff(a: Appointment, period: Duration, count: int)
    ensures RepeatingFrom([], a, period, count).Success? <==>
            count >= 1 && (count == 1 || period > a.end - a.start || -period > a.end - a.start)
  {
    if count >= 1 {
      var run := Run(a, period, count);
      var len := a.end - a.start;
      if count == 1 || period > len || -period > len {
        forall i, j | 0 <= i < j < count ensures !Overlaps(run[j], run[i]) {
          var gap := (j - i) * period;
          assert j * period - i * period == gap;
          if period > len {
            MulAtLeast(j - i, period);
          } else {
            MulAtLeast(j - i, -period);
            assert (j - i) * -period == -gap;
          }
        }
        AddAllCompletes([], run);
      } else {
        assert Overlaps(run[1], run[0]);
        AddAllStep([], run, 0);
        AddAllStep([], run, 1);
        assert run[..1] == [run[0]];
        assert Conflicts([run[0]], run[1]);
        AddAllStopped([], run, 2, count);
        AddAllWhole([], run);
      }
    }
  }

  /** A run whose period is longer than the appointment is added exactly as generated. */
  lemma RepeatingSpacedApart(a: Appointment, period: Duration, count: int)
    requires count >= 1 && period > a.end - a.start
    ensures RepeatingFrom([], a, period, count) == Success(Run(a, period, count))
  {
    var run := Run(a, period, count);
    forall i, j | 0 <= i < j < count ensures run[i].start < run[j].start && !Overlaps(run[j], run[i]) {
      MulAtLeast(j - i, period);
      assert j * period - i * period == (j - i) * period;
    }
    ReplayWellOrdered(run);
  }

  /** The appointments of several schedules, one schedule after the other. */
  function Concat(parts: seq<seq<Appointment>>): (r: seq<Appointment>)
    ensures |parts| == 0 ==> r == []
  {
    if parts == [] then [] else Concat(parts[..|parts| - 1]) + parts[|parts| - 1]
  }

  /** The parts before `i + 1` are the parts before `i` followed by part `i`. */
  lemma ConcatNext(parts: seq<seq<Appointment>>, i: nat)
    requires i < |parts|
    ensures Concat(parts[..i + 1]) == Concat(parts[..i]) + parts[i]
  {
    assert parts[..i + 1][..i] == parts[..i];
  }

  /** Where part `i` sits in the whole concatenation: right after the parts before it. */
  lemma ConcatStep(parts: seq<seq<Appointment>>, i: nat)
    requires i < |parts|
    ensures |Concat(parts[..i + 1])| == |Concat(parts[..i])| + |parts[i]| <= |Concat(parts)|
    ensures forall k :: 0 <= k < |parts[i]| ==> Concat(parts)[|Concat(parts[..i])| + k] == parts[i][k]
  {
    ConcatNext(parts, i);
    ConcatPrefix(parts, i + 1);
    var d := |Concat(parts[..i])|;
    forall k | 0 <= k < |parts[i]| ensures Concat(parts)[d + k] == parts[i][k] {
      assert Concat(parts)[d + k] == Concat(parts[..i + 1])[d + k];
    }
  }

  /** The concatenation of the first `n` parts is a prefix of the whole concatenation. */
  lemma {:induction false} ConcatPrefix(parts: seq<seq<Appointment>>, n: nat)
    requires n <= |parts|
    ensures |Concat(parts[..n])| <= |Concat(parts)|
    ensures Concat(parts)[..|Concat(parts[..n])|] == Concat(parts[..n])
    decreases |parts|
  {
    if n == |parts| {
      assert parts[..n] == parts;
    } else {
      var pre := parts[..|parts| - 1];
      ConcatPrefix(pre, n);
      assert pre[..n] == parts[..n];
    }
  }

  /**
   * The step a loop combining schedule by schedule takes: replaying part `i` from the state the
   * earlier parts left either extends the whole replay or ends it.
   */
  lemma CombineOne(parts: seq<seq<Appointment>>, i: nat, done: nat, before: seq<Appointment>)
    requires i < |parts| && done == |Concat(parts[..i])| <= |Concat(parts)|
    requires AddAll([], Concat(parts)[..done]) == Replay(before, done)
    ensures done + |parts[i]| == |Concat(parts[..i + 1])| <= |Concat(parts)|
    ensures var rep := AddAll(before, parts[i]);
            (rep.added == |parts[i]| ==>
               AddAll([], Concat(parts)[..done + |parts[i]|]) == Replay(rep.state, done + |parts[i]|)) &&
            (rep.added < |parts[i]| ==> AddAll([], Concat(parts)) == Replay(rep.state, done + rep.added))
  {
    var all := Concat(parts);
    ConcatStep(parts, i);
    assert all[..done + |parts[i]|] == all[..done] + parts[i];
    AddAllAppend([], all[..done], parts[i], before);
    if AddAll(before, parts[i]).added < |parts[i]| {
      AddAllStopped([], all, done + |parts[i]|, |all|);
      AddAllWhole([], all);
    }
  }

  /** `combine`: every appointment of every part added to an empty schedule, in order. */
  function Combined(parts: seq<seq<Appointment>>): (r: Result<seq<Appointment>, Error>)
  {
    var rep := AddAll([], Concat(parts));
    if rep.added == |Concat(parts)| then Success(rep.state) else Failure(OverlappingAppointment)
  }

  /** A replay of every part that stopped early is a failed combination. */
  lemma CombinedStopped(parts: seq<seq<Appointment>>, state: seq<Appointment>, added: nat)
    requires added < |Concat(parts)| && AddAll([], Concat(parts)) == Replay(state, added)
    ensures Combined(parts) == Failure(OverlappingAppointment)
  {
  }

  /** A replay of every part that added everything is the successful combination. */
  lemma CombinedComplete(parts: seq<seq<Appointment>>, state: seq<Appointment>)
    requires AddAll([], Concat(parts)[..|Concat(parts)|]) == Replay(state, |Concat(parts)|)
    ensures Combined(parts) == Success(state)
  {
    AddAllWhole([], Concat(parts));
  }

  /** Combining schedules that keep the invariant yields one that keeps it. */
  lemma CombinedWellOrdered(parts: seq<seq<Appointment>>)
    requires Combined(parts).Success?
    ensures WellOrdered(Combined(parts).value)
  {
    AddAllWellOrdered([], Concat(parts));
  }

  /** The run each appointment of a schedule is expanded into by `repeat`, as a sorted schedule. */
  function RunsOf(s: seq<Appointment>, period: Duration, count: int): (r: seq<seq<Appointment>>)
    requires count >= 1
    requires forall i :: 0 <= i < |s| ==> RepeatingFrom([], s[i], period, count).Success?
    ensures |r| == |s|
  {
    seq(|s|, i requires 0 <= i < |s| => RepeatingFrom([], s[i], period, count).value)
  }

  /**
   * `repeat`: every appointment expanded into its own run (the first failing expansion decides
   * the failure), and the runs combined in schedule order.
   */
  function Repeated(s: seq<Appointment>, period: Duration, count: int): (r: Result<seq<Appointment>, Error>)
  {
    if |s| > 0 && count < 1 then Failure(InvalidArgument)
    else if s == [] then Success([])
    else if exists i :: 0 <= i < |s| && RepeatingFrom([], s[i], period, count).Failure? then Failure(OverlappingAppointment)
    else Combined(RunsOf(s, period, count))
  }

  /** When one appointment fails to expand, `repeat` fails with that expansion's error. */
  lemma RepeatedExpansionFails(s: seq<Appointment>, period: Duration, count: int, i: nat)
    requires i < |s| && RepeatingFrom([], s[i], period, count).Failure?
    ensures Repeated(s, period, count) == Failure(RepeatingFrom([], s[i], period, count).error)
  {
  }

  /** When every appointment expands, `repeat` is the combination of the expansions. */
  lemma RepeatedExpansionsCombine(s: seq<Appointment>, period: Duration, count: int, runs: seq<seq<Appointment>>)
    requires |runs| == |s|
    requires forall k :: 0 <= k < |s| ==> RepeatingFrom([], s[k], period, count) == Success(runs[k])
    ensures Repeated(s, period, count) == Combined(runs)
  {
    if s != [] {
      assert RepeatingFrom([], s[0], period, count).Success?;
      assert runs == RunsOf(s, period, count);
    } else {
      assert Concat(runs) == [];
    }
  }

  /** Combining the single run of a schedule of one appointment gives back that run. */
  lemma CombinedSingleRun(a: Appointment, period: Duration, count: int)
    requires count >= 1 && RepeatingFrom([], a, period, count).Success?
    ensures Combined(RunsOf([a], period, count)) == RepeatingFrom([], a, period, count)
  {
    var v := RepeatingFrom([], a, period, count).value;
    assert v == AddAll([], Run(a, period, count)).state;
    AddAllWellOrdered([], Run(a, period, count));
    ReplayWellOrdered(v);
    var parts := RunsOf([a], period, count);
    assert parts == [v];
    assert Concat(parts) == v by {
      assert parts[..0] == [];
    }
  }

  /** Repeating a schedule of one appointment is the repeating run of that appointment. */
  lemma RepeatedSingle(a: Appointment, period: Duration, count: int)
    ensures Repeated([a], period, count) == RepeatingFrom([], a, period, count)
  {
    var one := RepeatingFrom([], a, period, count);
    if count >= 1 {
      if one.Success? {
        assert forall i :: 0 <= i < |[a]| ==> [a][i] == a;
        CombinedSingleRun(a, period, count);
      } else {
        assert one.error == OverlappingAppointment;
        assert [a][0] == a;
      }
    }
  }

  /** The sequence without the element at `i`. */
  function RemoveAt(s: seq<Appointment>, i: nat): (r: seq<Appointment>)
    requires i < |s|
    ensures |r| == |s| - 1
    ensures forall j :: 0 <= j < i ==> r[j] == s[j]
    ensures forall j :: i <= j < |r| ==> r[j] == s[j + 1]
  {
    s[..i] + s[i + 1..]
  }

  /** Removing an appointment keeps the invariant. */
  lemma RemoveAtWellOrdered(s: seq<Appointment>, i: nat)
    requires WellOrdered(s) && i < |s|
    ensures WellOrdered(RemoveAt(s, i))
  {
    var r := RemoveAt(s, i);
    forall a, b | 0 <= a < b < |r| ensures r[a].start < r[b].start && !Overlaps(r[b], r[a]) {
      var a' := if a < i then a else a + 1;
      var b' := if b < i then b else b + 1;
      assert r[a] == s[a'] && r[b] == s[b'];
    }
  }

  /**
   * `repeatComponent`: the index is checked first, then the appointment there is taken out and
   * its run replayed into the remaining ones.
   */
  function RepeatedComponent(s: seq<Appointment>, period: Duration, count: int, index: int): (r: Result<seq<Appointment>, Error>)
  {
    if index < 0 || index >= |s| then Failure(IndexOutOfRange)
    else RepeatingFrom(RemoveAt(s, index), s[index], period, count)
  }

  /** Repeating one component of a disjoint schedule once gives the schedule back. */
  lemma RepeatedComponentOnce(s: seq<Appointment>, period: Duration, index: nat)
    requires WellOrdered(s) && Disjoint(s) && index < |s|
    ensures RepeatedComponent(s, period, 1, index) == Success(s)
  {
    var rest := RemoveAt(s, index);
    var a := s[index];
    RemoveAtWellOrdered(s, index);
    var run := Run(a, period, 1);
    assert run == [a];
    forall k | 0 <= k < |rest| ensures !Overlaps(a, rest[k]) {
      if k < index { assert rest[k] == s[k]; } else { assert rest[k] == s[k + 1]; }
    }
    CountBeforeIs(rest, a.start, index);
    assert Insert(rest, a) == s;
    AddAllStep([], run, 0) by { assert run[..0] == []; }
    AddAllWhole(rest, run);
    assert AddAll(rest, run[..0]) == Replay(rest, 0);
    AddAllStep(rest, run, 0);
  }

  /** `includes` on a value: the semantics of the binary search over the starts. */
  function IncludesAt(s: seq<Appointment>, t: Instant): (r: Result<bool, Error>)
  {
    if |s| == 0 then Success(false)
    else if exists i :: 0 <= i < |s| && s[i].start == t then Success(true)
    else
      var k := CountBefore(s, t);
      // `Math.abs(index) - 2` is the insertion point minus one: -1 when t precedes every start
      if k == 0 then Failure(IndexOutOfRange) else Success(Includes(s[k - 1], t))
  }

  /** The query fails exactly when the instant comes before the first start. */
  lemma IncludesAtFailsIff(s: seq<Appointment>, t: Instant)
    requires StartsAscending(s)
    ensures IncludesAt(s, t).Failure? <==> |s| > 0 && t < s[0].start
  {
    if |s| > 0 {
      CountBeforeSplit(s, t);
      if t < s[0].start {
        assert forall i :: 0 <= i < |s| ==> s[i].start > t;
      }
    }
  }

  /** A positive answer is always right: some appointment includes the instant. */
  lemma IncludesAtSound(s: seq<Appointment>, t: Instant)
    requires IncludesAt(s, t) == Success(true)
    ensures exists i :: 0 <= i < |s| && Includes(s[i], t)
  {
    if exists i :: 0 <= i < |s| && s[i].start == t {
      var i :| 0 <= i < |s| && s[i].start == t;
      assert Includes(s[i], t);
    } else {
      var k := CountBefore(s, t);
      assert Includes(s[k - 1], t);
    }
  }

  /** On a disjoint schedule the query answers exactly whether some appointment includes the instant. */
  lemma IncludesAtDisjoint(s: seq<Appointment>, t: Instant)
    requires WellOrdered(s) && Disjoint(s) && IncludesAt(s, t).Success?
    ensures IncludesAt(s, t).value <==> exists i :: 0 <= i < |s| && Includes(s[i], t)
  {
    if IncludesAt(s, t) == Success(true) {
      IncludesAtSound(s, t);
    } else {
      var k := CountBefore(s, t);
      CountBeforeSplit(s, t);
      forall i | 0 <= i < |s| ensures !Includes(s[i], t) {
        if i >= k {
          assert s[i].start >= t && s[i].start != t;
        } else if i < k - 1 {
          assert s[i].end < s[k - 1].start;
        }
      }
    }
  }

  /**
   * On a schedule with a short appointment nested in a long one, the query misses an instant
   * that the long appointment includes: only the appointment with the latest start before the
   * instant is examined.
   */
  lemma IncludesAtMissesNested()
    ensures var s: seq<Appointment> := [Interval(0, 100), Interval(10, 20)];
            WellOrdered(s) && Includes(s[0], 50) && IncludesAt(s, 50) == Success(false)
  {
    var s: seq<Appointment> := [Interval(0, 100), Interval(10, 20)];
    assert CountBefore(s[1..], 50) == 1;
    assert !(exists i :: 0 <= i < |s| && s[i].start == 50);
  }

  /** After the last appointment has ended the query is false. */
  lemma IncludesAtAfterEnd(s: seq<Appointment>, t: Instant)
    requires StartsAscending(s) && |s| > 0 && t > s[|s| - 1].end
    ensures IncludesAt(s, t) == Success(false)
  {
    CountBeforeIs(s, t, |s|);
  }

  /** The coarse lifecycle of a schedule relative to the current time. */
  datatype Status = EMPTY | PRE | DURING | POST

  /** EMPTY without appointments, PRE before the first start, DURING before the last end, else POST. */
  function StatusAt(s: seq<Appointment>, now: Instant): (st: Status)
    ensures st == EMPTY <==> s == []
  {
    if s == [] then EMPTY
    else if now < s[0].start then PRE
    else if now < s[|s| - 1].end then DURING
    else POST
  }

  function Rank(st: Status): nat
  {
    match st
    case EMPTY => 0
    case PRE => 1
    case DURING => 2
    case POST => 3
  }

  /** On a non-empty schedule the status only moves forward as time passes. */
  lemma StatusMonotone(s: seq<Appointment>, t1: Instant, t2: Instant)
    requires StartsAscending(s) && s != [] && t1 <= t2
    ensures Rank(StatusAt(s, t1)) <= Rank(StatusAt(s, t2))
  {
    assert s[0].start <= s[|s| - 1].start <= s[|s| - 1].end;
  }

  /** PRE is exactly when the `includes` query fails. */
  lemma StatusPreIffIncludesFails(s: seq<Appointment>, t: Instant)
    requires StartsAscending(s)
    ensures StatusAt(s, t) == PRE <==> IncludesAt(s, t).Failure?
  {
    IncludesAtFailsIff(s, t);
  }

  /** `overlaps` between two schedules: some pair of appointments overlaps in either direction. */
  predicate SchedulesOverlap(s: seq<Appointment>, o: seq<Appointment>)
  {
    exists i, j :: 0 <= i < |s| && 0 <= j < |o| && (Overlaps(s[i], o[j]) || Overlaps(o[j], s[i]))
  }

  /** Unlike appointment overlap, schedule overlap is symmetric. */
  lemma SchedulesOverlapSymmetric(s: seq<Appointment>, o: seq<Appointment>)
    ensures SchedulesOverlap(s, o) <==> SchedulesOverlap(o, s)
  {
    if SchedulesOverlap(s, o) {
      var i, j :| 0 <= i < |s| && 0 <= j < |o| && (Overlaps(s[i], o[j]) || Overlaps(o[j], s[i]));
      assert 0 <= j < |o| && 0 <= i < |s| && (Overlaps(o[j], s[i]) || Overlaps(s[i], o[j]));
    }
    if SchedulesOverlap(o, s) {
      var j, i :| 0 <= j < |o| && 0 <= i < |s| && (Overlaps(o[j], s[i]) || Overlaps(s[i], o[j]));
      assert 0 <= i < |s| && 0 <= j < |o| && (Overlaps(s[i], o[j]) || Overlaps(o[j], s[i]));
    }
  }

  /** Merging a schedule that does not overlap the target adds every one of its appointments. */
  lemma MergeCompletes(target: seq<Appointment>, other: seq<Appointment>)
    requires WellOrdered(other) && !SchedulesOverlap(target, other)
    ensures AddAll(target, other).added == |other|
  {
    forall j, i | 0 <= j < |other| && 0 <= i < |target| ensures !Overlaps(other[j], target[i]) {
      assert !(Overlaps(target[i], other[j]) || Overlaps(other[j], target[i]));
    }
    AddAllCompletes(target, other);
  }

  /** The serialized schedule: one record per appointment, in order. */
  function SerializeAll(s: seq<Appointment>, format: Instant -> string): (r: seq<map<string, string>>)
    ensures |r| == |s|
    ensures forall i :: 0 <= i < |s| ==> r[i] == Serialize(s[i], format)
  {
    seq(|s|, i requires 0 <= i < |s| => Serialize(s[i], format))
  }

  /**
   * `deserialize`: each record parsed and added in turn; the first record that does not parse
   * or does not fit decides the failure.
   */
  function Load(records: seq<map<string, string>>, parse: string -> Option<Instant>): (r: Result<seq<Appointment>, Error>)
    decreases |records|
  {
    if records == [] then Success([])
    else
      match Load(records[..|records| - 1], parse)
      case Failure(e) => Failure(e)
      case Success(s) =>
        match Deserialize(records[|records| - 1], parse)
        case Failure(e) => Failure(e)
        case Success(a) => if Conflicts(s, a) then Failure(OverlappingAppointment) else Success(Insert(s, a))
  }

  /** Once loading a prefix has failed, the records after it change nothing. */
  lemma {:induction false} LoadStopped(records: seq<map<string, string>>, parse: string -> Option<Instant>, n: nat)
    requires n <= |records| && Load(records[..n], parse).Failure?
    ensures Load(records, parse) == Load(records[..n], parse)
    decreases |records|
  {
    if n < |records| {
      var pre := records[..|records| - 1];
      assert pre[..n] == records[..n];
      LoadStopped(pre, parse, n);
    } else {
      assert records[..n] == records;
    }
  }

  /** Reloading a serialized schedule gives it back, when the parser undoes the formatter. */
  lemma {:induction false} LoadSerialize(s: seq<Appointment>, format: Instant -> string, parse: string -> Option<Instant>)
    requires WellOrdered(s)
    requires forall t :: parse(format(t)) == Some(t)
    ensures Load(SerializeAll(s, format), parse) == Success(s)
    decreases |s|
  {
    if s != [] {
      var n := |s|;
      var pre := s[..n - 1];
      assert WellOrdered(pre);
      LoadSerialize(pre, format, parse);
      var recs := SerializeAll(s, format);
      assert recs[..n - 1] == SerializeAll(pre, format);
      DeserializeSerialize(s[n - 1], format, parse);
      assert !Conflicts(pre, s[n - 1]);
      InsertLast(pre, s[n - 1]);
      assert pre + [s[n - 1]] == s;
    }
  }
}
