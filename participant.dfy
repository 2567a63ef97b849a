/**
 * A participant of a class: an immutable record of a first name, a last name and the player's
 * UUID, stored as a string map.
 */
module Participants {
  import opened Wrappers
  import opened Errors

  /** A player's UUID: its two 64-bit halves, as `java.util.UUID` keeps them. */
  datatype Uuid = Uuid(mostSigBits: int, leastSigBits: int)

  /** Equality is by value over all three fields. */
  datatype Participant = Participant(firstName: string, lastName: string, playerUuid: Uuid)

  /** The stored record: exactly the keys first_name, last_name and mc_uuid; `show` writes the UUID. */
  function Serialize(p: Participant, show: Uuid -> string): (m: map<string, string>)
    ensures m.Keys == {"first_name", "last_name", "mc_uuid"}
    ensures m["first_name"] == p.firstName && m["last_name"] == p.lastName
    ensures m["mc_uuid"] == show(p.playerUuid)
  {
    map["first_name" := p.firstName, "last_name" := p.lastName, "mc_uuid" := show(p.playerUuid)]
  }

  /**
   * Reads a stored record back; `read` parses the UUID text. A missing key is a null reference
   * and UUID text that does not parse is an invalid argument.
   */
  function Deserialize(m: map<string, string>, read: string -> Option<Uuid>): (r: Result<Participant, Error>)
    ensures r.Success? <==>
              "first_name" in m && "last_name" in m && "mc_uuid" in m && read(m["mc_uuid"]).Some?
    ensures r.Success? ==>
              r.value == Participant(m["first_name"], m["last_name"], read(m["mc_uuid"]).value)
    ensures r.Failure? && "mc_uuid" in m && "first_name" in m && "last_name" in m ==> r.error == InvalidArgument
  {
    if "mc_uuid" !in m || "first_name" !in m || "last_name" !in m then Failure(NullReference)
    else match read(m["mc_uuid"])
      case None => Failure(InvalidArgument)
      case Some(u) => Success(Participant(m["first_name"], m["last_name"], u))
  }

  /** Reading back a stored participant gives the same participant, when `read` undoes `show`. */
  lemma DeserializeSerialize(p: Participant, show: Uuid -> string, read: string -> Option<Uuid>)
    requires forall u :: read(show(u)) == Some(u)
    ensures Deserialize(Serialize(p, show), read) == Success(p)
  {
    var m := Serialize(p, show);
    assert read(m["mc_uuid"]) == Some(p.playerUuid);
  }
}
