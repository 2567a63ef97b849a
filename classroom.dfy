/**
 * A classroom: its id and display name, its schedule, its participants and the registration forms
 * of the players currently signing up.
 */
module Classrooms {
  import opened Wrappers
  import opened Errors
  import opened Appointments
  import opened ScheduleSpec
  import opened Schedules
  import opened Participants
  import opened Registration

  /** The curriculum a class follows; the curriculum catalogue is not part of this model. */
  datatype Curriculum = NONE | Named(title: string)

  /** Whether some participant is the player with this UUID. */
  function HasUuid(ps: seq<Participant>, u: Uuid): (r: bool)
    ensures r <==> exists i :: 0 <= i < |ps| && ps[i].playerUuid == u
  {
    if ps == [] then false
    else
      var rest := HasUuid(ps[1..], u);
      assert forall i :: 1 <= i < |ps| ==> ps[i] == ps[1..][i - 1];
      ps[0].playerUuid == u || rest
  }

  /** Whether a participant appended at the end brings the player in. */
  lemma HasUuidSnoc(ps: seq<Participant>, x: Participant, u: Uuid)
    ensures HasUuid(ps + [x], u) <==> HasUuid(ps, u) || x.playerUuid == u
  {
    var qs := ps + [x];
    assert forall i :: 0 <= i < |ps| ==> qs[i] == ps[i];
    assert qs[|ps|] == x;
  }

  /** The participants, in their order, except those of the player with this UUID. */
  function WithoutUuid(ps: seq<Participant>, u: Uuid): (r: seq<Participant>)
    ensures |r| <= |ps|
    ensures forall i :: 0 <= i < |r| ==> r[i].playerUuid != u
  {
    if ps == [] then []
    else
      var pre := WithoutUuid(ps[..|ps| - 1], u);
      if ps[|ps| - 1].playerUuid == u then pre else pre + [ps[|ps| - 1]]
  }

  /** One more participant at the end: kept iff it is not the player. */
  lemma WithoutUuidSnoc(ps: seq<Participant>, x: Participant, u: Uuid)
    ensures WithoutUuid(ps + [x], u) == if x.playerUuid == u then WithoutUuid(ps, u) else WithoutUuid(ps, u) + [x]
  {
    assert (ps + [x])[..|ps|] == ps;
  }

  /** Every other player keeps exactly as many entries; the player's are all gone. */
  lemma {:induction false} WithoutUuidCounts(ps: seq<Participant>, u: Uuid)
    ensures forall p: Participant :: p.playerUuid != u ==> multiset(WithoutUuid(ps, u))[p] == multiset(ps)[p]
    ensures |WithoutUuid(ps, u)| == |ps| <==> !HasUuid(ps, u)
    decreases |ps|
  {
    if ps != [] {
      var pre := ps[..|ps| - 1];
      var x := ps[|ps| - 1];
      assert ps == pre + [x];
      WithoutUuidCounts(pre, u);
      WithoutUuidSnoc(pre, x, u);
      HasUuidSnoc(pre, x, u);
    }
  }

  /** Removing a player nobody is leaves the participants as they are. */
  lemma {:induction false} WithoutAbsentUuid(ps: seq<Participant>, u: Uuid)
    requires !HasUuid(ps, u)
    ensures WithoutUuid(ps, u) == ps
    decreases |ps|
  {
    if ps != [] {
      var pre := ps[..|ps| - 1];
      var x := ps[|ps| - 1];
      assert ps == pre + [x];
      HasUuidSnoc(pre, x, u);
      WithoutAbsentUuid(pre, u);
      WithoutUuidSnoc(pre, x, u);
    }
  }

  /** A character a class name may contain: an ASCII letter, a digit or a space. */
  predicate NameChar(c: char)
  {
    'a' <= c <= 'z' || 'A' <= c <= 'Z' || '0' <= c <= '9' || c == ' '
  }

  /** Whether no character of the text falls outside the allowed class-name characters. */
  function AllNameChars(s: string): (r: bool)
    ensures r <==> forall i :: 0 <= i < |s| ==> NameChar(s[i])
  {
    if s == [] then true
    else
      assert forall i :: 1 <= i < |s| ==> s[i] == s[1..][i - 1];
      NameChar(s[0]) && AllNameChars(s[1..])
  }

  /** A valid class name is non-empty and has no character outside letters, digits and space. */
  function IsValidName(s: string): (r: bool)
    ensures r <==> |s| > 0 && forall i :: 0 <= i < |s| ==> NameChar(s[i])
  {
    |s| > 0 && AllNameChars(s)
  }

  class Classroom {
    const id: string
    var name: string
    var curriculum: Curriculum
    var schedule: Schedule
    var participants: seq<Participant>
    var registering: map<Uuid, RegistrationForm>
    var publik: bool

    ghost predicate Valid()
      reads this, schedule
    {
      schedule.Valid()
    }

    /** A new classroom is named after its id, has an empty schedule, no participants and is private. */
    constructor (id: string)
      ensures Valid() && fresh(schedule)
      ensures this.id == id && name == id && curriculum == NONE
      ensures schedule.appointments == [] && participants == [] && registering == map[] && !publik
    {
      this.id := id;
      name := id;
      curriculum := NONE;
      schedule := new Schedule();
      participants := [];
      registering := map[];
      publik := false;
    }

    /** Appends a participant (duplicates included); the list always changes, so the answer is true. */
    method AddParticipant(p: Participant) returns (r: bool)
      modifies this
      ensures r && participants == old(participants) + [p]
      ensures schedule == old(schedule) && registering == old(registering)
      ensures name == old(name) && curriculum == old(curriculum) && publik == old(publik)
    {
      participants := participants + [p];
      return true;
    }

    /** Appends several participants in order; true iff there was any to append. */
    method AddParticipants(ps: seq<Participant>) returns (r: bool)
      modifies this
      ensures r <==> |ps| > 0
      ensures participants == old(participants) + ps
      ensures schedule == old(schedule) && registering == old(registering)
      ensures name == old(name) && curriculum == old(curriculum) && publik == old(publik)
    {
      participants := participants + ps;
      return |ps| > 0;
    }

    /**
     * Removes every participant with this UUID, keeping the others in order; true iff any was
     * removed.
     */
    method RemoveParticipant(u: Uuid) returns (removed: bool)
      modifies this
      ensures participants == WithoutUuid(old(participants), u)
      ensures removed <==> HasUuid(old(participants), u)
      ensures schedule == old(schedule) && registering == old(registering)
      ensures name == old(name) && curriculum == old(curriculum) && publik == old(publik)
    {
      var ps := participants;
      var kept: seq<Participant> := [];
      removed := false;
      var i := 0;
      while i < |ps|
        invariant 0 <= i <= |ps|
        invariant kept == WithoutUuid(ps[..i], u)
        invariant removed <==> HasUuid(ps[..i], u)
        invariant schedule == old(schedule) && registering == old(registering)
        invariant name == old(name) && curriculum == old(curriculum) && publik == old(publik)
      {
        assert ps[..i + 1] == ps[..i] + [ps[i]];
        WithoutUuidSnoc(ps[..i], ps[i], u);
        HasUuidSnoc(ps[..i], ps[i], u);
        if ps[i].playerUuid == u {
          removed := true;
        } else {
          kept := kept + [ps[i]];
        }
        i := i + 1;
      }
      assert ps[..i] == ps;
      participants := kept;
    }

    /** Whether the player is a participant (also the registered-player test). */
    function InClass(u: Uuid): (r: bool)
      reads this
      ensures r <==> exists i :: 0 <= i < |participants| && participants[i].playerUuid == u
    {
      HasUuid(participants, u)
    }

    /** Whether the class's schedule includes the instant, with the schedule query's failure. */
    function InSession(now: Instant): (r: Result<bool, Error>)
      requires Valid()
      reads this, schedule
      ensures r.Failure? <==> schedule.appointments != [] && now < schedule.appointments[0].start
      ensures r == Success(true) ==>
                exists i :: 0 <= i < |schedule.appointments| && Appointments.Includes(schedule.appointments[i], now)
    {
      schedule.Includes(now)
    }

    /** Whether the two classes' schedules overlap. */
    method Conflicts(other: Classroom) returns (r: bool)
      ensures r <==> SchedulesOverlap(schedule.appointments, other.schedule.appointments)
    {
      r := schedule.OverlapsWith(other.schedule);
    }

    /** Two classrooms are equal exactly when their ids are. */
    function Equals(other: Classroom): (r: bool)
      ensures r <==> id == other.id
    {
      id == other.id
    }

    /** The player's registration form, if the player is registering. */
    function GetRegistrationForm(u: Uuid): (r: Option<RegistrationForm>)
      reads this
      ensures r.Some? <==> u in registering
      ensures r.Some? ==> r.value == registering[u]
    {
      if u in registering then Some(registering[u]) else None
    }

    /** Whether the player has a registration form. */
    function IsRegistering(u: Uuid): (r: bool)
      reads this
      ensures r <==> GetRegistrationForm(u).Some?
    {
      u in registering
    }

    /** Gives the player a fresh form, replacing any form already there. */
    method StartRegistering(u: Uuid)
      modifies this
      ensures registering.Keys == old(registering).Keys + {u}
      ensures fresh(registering[u]) && registering[u].cursor == 0
      ensures registering[u].firstName.None? && registering[u].lastName.None?
      ensures forall k :: k in old(registering) && k != u ==> registering[k] == old(registering)[k]
      ensures participants == old(participants) && schedule == old(schedule)
      ensures name == old(name) && curriculum == old(curriculum) && publik == old(publik)
    {
      var form := new RegistrationForm();
      registering := registering[u := form];
    }

    /**
     * Without a form: nothing happens and there is no participant. Otherwise the form is
     * completed for the player; the participant is appended and the form discarded. A form with
     * a missing name fails in the participant constructor and nothing changes.
     */
    method CompleteRegistration(u: Uuid) returns (r: Result<Option<Participant>, Error>)
      modifies this
      ensures u !in old(registering) ==>
                r == Success(None) && participants == old(participants) && registering == old(registering)
      ensures u in old(registering) ==>
                var c := old(registering[u].Complete(u));
                && (c.Failure? ==> r == Failure(c.error) && participants == old(participants) && registering == old(registering))
                && (c.Success? ==> r == Success(Some(c.value)) && participants == old(participants) + [c.value]
                                   && registering == old(registering) - {u})
      ensures schedule == old(schedule)
      ensures name == old(name) && curriculum == old(curriculum) && publik == old(publik)
    {
      var form := GetRegistrationForm(u);
      if form.None? {
        return Success(None);
      }
      var c := form.value.Complete(u);
      if c.Failure? {
        return Failure(c.error);
      }
      var ok := AddParticipant(c.value);
      registering := registering - {u};
      return Success(Some(c.value));
    }
  }
}
