/**
 * The registration form a player fills in to join a class: two stages (first name, then last
 * name) walked through by a cursor.
 */
module Registration {
  import opened Wrappers
  import opened Errors
  import opened Participants

  datatype Stage = FirstNameStage | LastNameStage

  /** The stages in order; the cursor indexes this sequence. */
  const Stages: seq<Stage> := [FirstNameStage, LastNameStage]

  /** The prompt shown for each stage. */
  function Prompt(st: Stage): string
  {
    match st
    case FirstNameStage => "Please type your first name"
    case LastNameStage => "Please type your last name"
  }

  class RegistrationForm {
    var cursor: nat
    var firstName: Option<string>
    var lastName: Option<string>

    /** Each stage passed has stored its name, and no other name is set. */
    ghost predicate Valid()
      reads this
    {
      (firstName.Some? <==> cursor >= 1) && (lastName.Some? <==> cursor >= 2)
    }

    /** A fresh form: at the first stage, no names recorded. */
    constructor ()
      ensures Valid() && cursor == 0 && firstName == None && lastName == None
    {
      cursor := 0;
      firstName := None;
      lastName := None;
    }

    /** The current stage's prompt; past the last stage the stage lookup is out of range. */
    function Message(): (r: Result<string, Error>)
      reads this
      ensures r.Success? <==> cursor < |Stages|
      ensures cursor == 0 ==> r == Success("Please type your first name")
      ensures cursor == 1 ==> r == Success("Please type your last name")
      ensures r.Failure? ==> r.error == IndexOutOfRange
    {
      if cursor < |Stages| then Success(Prompt(Stages[cursor])) else Failure(IndexOutOfRange)
    }

    /**
     * Stores the text in the current stage's field and moves to the next stage. The cursor is
     * incremented before the stage lookup, so it advances even when the form is already done
     * and the lookup fails.
     */
    method Input(data: string) returns (o: Outcome<Error>)
      modifies this
      ensures cursor == old(cursor) + 1
      ensures o.Pass? <==> old(cursor) < |Stages|
      ensures o.Fail? ==> o.error == IndexOutOfRange
      ensures old(cursor) == 0 ==> firstName == Some(data) && lastName == old(lastName)
      ensures old(cursor) == 1 ==> lastName == Some(data) && firstName == old(firstName)
      ensures old(cursor) >= |Stages| ==> firstName == old(firstName) && lastName == old(lastName)
      ensures old(Valid()) ==> Valid()
    {
      var at := cursor;
      cursor := cursor + 1;
      if at >= |Stages| {
        return Fail(IndexOutOfRange);
      }
      if Stages[at] == FirstNameStage {
        firstName := Some(data);
      } else {
        lastName := Some(data);
      }
      return Pass;
    }

    /** Done once the cursor has passed every stage. */
    predicate IsDone()
      reads this
    {
      cursor >= |Stages|
    }

    /**
     * The participant the form describes, for the given player. A name that was never entered is
     * null, which the participant constructor refuses.
     */
    function Complete(uuid: Uuid): (r: Result<Participant, Error>)
      reads this
      ensures r.Success? <==> firstName.Some? && lastName.Some?
      ensures r.Success? ==> r.value == Participant(firstName.value, lastName.value, uuid)
      ensures r.Failure? ==> r.error == NullReference
      ensures Valid() && IsDone() ==> r.Success?
    {
      if firstName.None? || lastName.None? then Failure(NullReference)
      else Success(Participant(firstName.value, lastName.value, uuid))
    }
  }

  /** Filling in a fresh form with two answers completes it with exactly those names. */
  method FillIn(first: string, last: string, uuid: Uuid) returns (r: Result<Participant, Error>)
    ensures r == Success(Participant(first, last, uuid))
  {
    var form := new RegistrationForm();
    var o1 := form.Input(first);
    var o2 := form.Input(last);
    assert form.IsDone();
    r := form.Complete(uuid);
  }
}
