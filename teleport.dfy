/**
 * Teleport requests: a table from (requester, destination) to the instant the request was made.
 * The expiry tests compare the request time plus the timeout with the current instant the way
 * the code does, which is the opposite of what their names suggest.
 */
module Teleports {
  import opened Appointments
  import opened Participants

  /** The configured request timeout, in seconds, when the setting is left at its default. */
  const DEFAULT_TIMEOUT: int := 30

  class TeleportManager {
    var requests: map<(Uuid, Uuid), Instant>
    const timeout: int

    constructor (timeout: int)
      ensures requests == map[] && this.timeout == timeout
    {
      requests := map[];
      this.timeout := timeout;
    }

    /** Whether the table holds a request from the requester to the destination. */
    function HasRequest(requester: Uuid, destination: Uuid): (r: bool)
      reads this
      ensures r <==> (requester, destination) in requests
    {
      (requester, destination) in requests
    }

    /** Records a request at the current instant, replacing any earlier one for the same pair. */
    method Request(requester: Uuid, destination: Uuid, now: Instant)
      modifies this
      ensures requests == old(requests)[(requester, destination) := now]
      ensures HasRequest(requester, destination)
    {
      requests := requests[(requester, destination) := now];
    }

    /** `expired`, as written: true without a request, otherwise whether the timeout is still running. */
    function Expired(requester: Uuid, destination: Uuid, now: Instant): (r: bool)
      reads this
      ensures !HasRequest(requester, destination) ==> r
      ensures HasRequest(requester, destination) ==> (r <==> now < requests[(requester, destination)] + timeout)
    {
      if (requester, destination) !in requests then true
      else requests[(requester, destination)] + timeout > now
    }

    /**
     * `accept`, as written: false without a request or while the timeout is still running, false
     * when either player is offline, and true otherwise. The request is never removed.
     */
    function Accept(requester: Uuid, destination: Uuid, now: Instant, requesterOnline: bool, destinationOnline: bool): (r: bool)
      reads this
      ensures r ==> (requester, destination) in requests && requests[(requester, destination)] + timeout <= now
    {
      if (requester, destination) !in requests then false
      else if requests[(requester, destination)] + timeout > now then false
      else requesterOnline && destinationOnline
    }

    /**
     * A request can be accepted exactly when it exists, `expired` answers false for it (the two
     * tests agree, both inverted) and both players are online.
     */
    lemma AcceptIffExpired(requester: Uuid, destination: Uuid, now: Instant, requesterOnline: bool, destinationOnline: bool)
      ensures Accept(requester, destination, now, requesterOnline, destinationOnline) <==>
                HasRequest(requester, destination) && !Expired(requester, destination, now)
                && requesterOnline && destinationOnline
    {
    }

    /** With a positive timeout, a request cannot be accepted at the instant it was made. */
    lemma FreshRequestNotAccepted(requester: Uuid, destination: Uuid, now: Instant, requesterOnline: bool, destinationOnline: bool)
      requires timeout > 0 && HasRequest(requester, destination) && requests[(requester, destination)] == now
      ensures Expired(requester, destination, now)
      ensures !Accept(requester, destination, now, requesterOnline, destinationOnline)
    {
    }

    /** `deny`: false and no change without a request; otherwise the request is removed. */
    method Deny(requester: Uuid, destination: Uuid) returns (r: bool)
      modifies this
      ensures r <==> (requester, destination) in old(requests)
      ensures requests == old(requests) - {(requester, destination)}
      ensures !HasRequest(requester, destination)
    {
      if (requester, destination) !in requests {
        return false;
      }
      requests := requests - {(requester, destination)};
      return true;
    }
  }
}
