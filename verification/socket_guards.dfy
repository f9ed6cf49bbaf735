/**
 * The two pure checks every room- or message-level socket event goes
 * through: may this user act in this room, and did this user send this
 * message.
 */
module SocketGuards {
  import opened Common

  const ROOM_NOT_FOUND := "Room not found"
  const NOT_AUTHORIZED_ROOM := "Not authorized to access this room"
  const MESSAGE_NOT_FOUND := "Message not found"
  const NOT_AUTHORIZED_MESSAGE := "Not authorized to modify this message"

  datatype Access = Granted | Denied(error: string)

  /** Roles with access to every room. */
  predicate IsUniversalRole(role: Option<string>)
  {
    role.Some? && role.value in [SUPER_ADMIN, ADMIN, TENANT_ADMIN]
  }

  /**
   * One participant entry as the check sees it: the participant's user id,
   * or nothing when the reference is empty (a populated user that no longer
   * exists). A populated user and a bare id compare by the same id.
   */
  type ParticipantRef = Option<Id>

  predicate IsMember(participants: seq<ParticipantRef>, user: Id)
  {
    exists i :: 0 <= i < |participants| && participants[i] == Some(user)
  }

  /**
   * `verifyRoomAccess(room, userId, userRole)`: a missing room is refused;
   * a universal role is let in whatever the membership; anyone else must be a
   * participant.
   */
  function VerifyRoomAccess(room: Option<seq<ParticipantRef>>, user: Id, role: Option<string>): (r: Access)
    ensures room.None? ==> r == Denied(ROOM_NOT_FOUND)
    ensures room.Some? && IsUniversalRole(role) ==> r == Granted
    ensures room.Some? && !IsUniversalRole(role) ==>
      (r == Granted <==> IsMember(room.value, user)) &&
      (r != Granted ==> r == Denied(NOT_AUTHORIZED_ROOM))
  {
    if room.None? then Denied(ROOM_NOT_FOUND)
    else if IsUniversalRole(role) then Granted
    else if MemberScan(room.value, user) then Granted
    else Denied(NOT_AUTHORIZED_ROOM)
  }

  /** `participants.some(...)`, scanning from the front. */
  function MemberScan(participants: seq<ParticipantRef>, user: Id): (found: bool)
    ensures found <==> IsMember(participants, user)
  {
    if participants == [] then false
    else if participants[0] == Some(user) then true
    else
      var rest := MemberScan(participants[1..], user);
      assert forall i :: 1 <= i < |participants| ==> participants[i] == participants[1..][i - 1];
      rest
  }

  /** Access only widens when a participant is added. */
  lemma AccessMonotone(participants: seq<ParticipantRef>, extra: ParticipantRef, user: Id,
                       role: Option<string>)
    requires VerifyRoomAccess(Some(participants), user, role) == Granted
    ensures VerifyRoomAccess(Some(participants + [extra]), user, role) == Granted
  {
    if !IsUniversalRole(role) {
      var i :| 0 <= i < |participants| && participants[i] == Some(user);
      assert (participants + [extra])[i] == Some(user);
    }
  }

  /** A participant entry whose user is gone grants nobody access. */
  lemma EmptyRefGrantsNothing(participants: seq<ParticipantRef>, user: Id, role: Option<string>)
    ensures VerifyRoomAccess(Some(participants + [None]), user, role) ==
            VerifyRoomAccess(Some(participants), user, role)
  {
    var ps := participants + [None];
    if IsMember(ps, user) {
      var i :| 0 <= i < |ps| && ps[i] == Some(user);
      assert i < |participants| && participants[i] == Some(user);
    }
    if IsMember(participants, user) {
      var i :| 0 <= i < |participants| && participants[i] == Some(user);
      assert ps[i] == Some(user);
    }
  }

  /**
   * `verifyMessageOwnership(message, userId)`: a missing message is refused,
   * and otherwise only its sender passes. `message` is the sender id of the
   * found message.
   */
  function VerifyMessageOwnership(messageSender: Option<Id>, user: Id): (r: Access)
    ensures messageSender.None? ==> r == Denied(MESSAGE_NOT_FOUND)
    ensures messageSender.Some? ==> (r == Granted <==> messageSender.value == user)
    ensures messageSender.Some? && r != Granted ==> r == Denied(NOT_AUTHORIZED_MESSAGE)
  {
    if messageSender.None? then Denied(MESSAGE_NOT_FOUND)
    else if messageSender.value != user then Denied(NOT_AUTHORIZED_MESSAGE)
    else Granted
  }
}
