/**
 * The REST chat controller: who may open which room (direct, group and
 * admin rooms), the pagination arithmetic of the room listing, the
 * de-duplication of the "available users" list, and the message handlers
 * that mark a room read, edit, delete and mark messages delivered.
 *
 * A request body field that is absent, `null` or the empty string is the
 * empty id `""`. The users collection is a map from id to document (what
 * `findById` sees); the rooms collection is a sequence in natural order, so
 * `findOne` returns the first match. The documents a handler changes live in
 * a `ChatStore`.
 */
module ChatController {
  import opened Common
  import opened RoomModel
  import opened MessageModel
  import opened UserModel
  import SocketState

  // ---------------------------------------------------------------------
  // Response texts
  // ---------------------------------------------------------------------

  const OTHER_USER_REQUIRED := "Other user ID is required"
  const SELF_ROOM := "Cannot create room with yourself"
  const USER_NOT_FOUND := "User not found"
  const USER_NOT_ACTIVE := "User is not active"
  const CANNOT_CHAT := "You cannot chat with this user"
  const GROUP_ADMINS_ONLY := "Only admins can create group rooms"
  const ROOM_NAME_REQUIRED := "Room name is required"
  const PARTICIPANT_REQUIRED := "At least one participant is required"
  const TENANT_REQUIRED := "Tenant ID is required"
  const GROUP_TOO_SMALL := "Group must have at least 2 participants"
  const PARTICIPANTS_INACTIVE := "One or more participants not found or inactive"
  const ADMIN_CHAT_UNAUTHORIZED := "Unauthorized to create admin chat"
  const ADMIN_ID_REQUIRED := "Admin ID is required"
  const SELF_CHAT := "Cannot chat with yourself"
  const ADMIN_ROLE_REQUIRED := "User must be ADMIN or TENANT_ADMIN or SUPER_ADMIN"
  const ADMIN_CHAT_DENIED := "Permission denied for admin chat"
  const INVALID_PAGINATION := "Invalid pagination parameters"
  const ROOM_ID_REQUIRED := "Room ID is required"
  const ROOM_NOT_FOUND := "Room not found"
  const ROOM_MARKED_READ := "Room marked as read"
  const CONTENT_REQUIRED := "Content is required"
  const MESSAGE_NOT_FOUND := "Message not found"
  const ONLY_SENDER_EDITS := "Only sender can edit message"
  const EDIT_DELETED := "Cannot edit deleted message"
  const MESSAGE_UPDATED := "Message updated"
  const ONLY_SENDER_DELETES := "Only sender can delete message"
  const MESSAGE_DELETED := "Message deleted"
  const NOTHING_TO_DELIVER := "No messages to deliver"
  const MESSAGES_DELIVERED := "Messages marked as delivered"

  /** The room-level roles the controllers write. */
  const INITIATOR := "INITIATOR"
  const PARTICIPANT := "PARTICIPANT"
  const GROUP_ADMIN := "ADMIN"

  const DEFAULT_PAGE := 1
  const DEFAULT_LIMIT := 50
  const MAX_LIMIT := 100

  /** The authenticated caller, `req.user`. */
  datatype Caller = Caller(id: Id, role: string, tenantId: Option<Id>)

  /** A room request ends with a new room (201), an existing one (200) or an error. */
  datatype RoomOutcome = Created(room: RoomDoc) | Existing(room: RoomDoc) | Refused(status: int, message: string)

  function HttpStatus(r: RoomOutcome): int
  {
    match r
    case Created(_) => 201
    case Existing(_) => 200
    case Refused(status, _) => status
  }

  predicate IsTenantAdminRole(role: string)
  {
    role == ADMIN || role == TENANT_ADMIN
  }

  predicate IsAdminRole(role: string)
  {
    IsTenantAdminRole(role) || role == SUPER_ADMIN
  }

  predicate ActiveUser(users: map<Id, UserRecord>, u: Id)
  {
    u in users && users[u].status == ACTIVE
  }

  // ---------------------------------------------------------------------
  // Who may chat with whom
  // ---------------------------------------------------------------------

  /**
   * The `canChat` decision of `createDirectRoom`. Tenants are compared as
   * optional values: two users without a tenant have the same tenant.
   */
  predicate CanDirectChat(callerRole: string, callerTenant: Option<Id>, otherRole: string, otherTenant: Option<Id>)
    ensures CanDirectChat(callerRole, callerTenant, otherRole, otherTenant) ==> IsAdminRole(callerRole) || callerRole == USER
    ensures CanDirectChat(callerRole, callerTenant, otherRole, otherTenant) && callerTenant != otherTenant ==>
      callerRole == SUPER_ADMIN || otherRole == SUPER_ADMIN
  {
    if callerRole == SUPER_ADMIN then IsTenantAdminRole(otherRole)
    else if IsTenantAdminRole(callerRole) then
      otherRole == SUPER_ADMIN || (otherRole == USER && otherTenant == callerTenant)
    else if callerRole == USER then otherTenant == callerTenant
    else false
  }

  /** A super admin reaches exactly the admins and tenant admins, whatever the tenants. */
  lemma SuperAdminReachesAdminsOnly(callerTenant: Option<Id>, otherRole: string, otherTenant: Option<Id>)
    ensures CanDirectChat(SUPER_ADMIN, callerTenant, otherRole, otherTenant) <==> IsTenantAdminRole(otherRole)
  {
  }

  /** Two admins of any kind other than a super admin never open a direct room with each other. */
  lemma AdminPeersRefused(callerRole: string, otherRole: string, t1: Option<Id>, t2: Option<Id>)
    requires IsTenantAdminRole(callerRole) && IsTenantAdminRole(otherRole)
    ensures !CanDirectChat(callerRole, t1, otherRole, t2)
  {
  }

  /** An unknown role opens nothing. */
  lemma UnknownRoleRefused(callerRole: string, t1: Option<Id>, otherRole: string, t2: Option<Id>)
    requires !IsAdminRole(callerRole) && callerRole != USER
    ensures !CanDirectChat(callerRole, t1, otherRole, t2)
  {
  }

  /**
   * The rule is symmetric except in one place: a user may address anyone of
   * their own tenant, including a super admin or a user with an unknown
   * role, who may not answer with a room of their own.
   */
  lemma DirectChatOneWay(a: string, ta: Option<Id>, b: string, tb: Option<Id>)
    ensures CanDirectChat(a, ta, b, tb) && !CanDirectChat(b, tb, a, ta) <==>
      a == USER && ta == tb && b != USER && !IsTenantAdminRole(b)
  {
  }

  /** A tenantless user may open a room with a super admin, who may not open one back. */
  lemma TenantlessUserReachesSuperAdmin()
    ensures CanDirectChat(USER, None, SUPER_ADMIN, None)
    ensures !CanDirectChat(SUPER_ADMIN, None, USER, None)
  {
    DirectChatOneWay(USER, None, SUPER_ADMIN, None);
  }

  /** The pairs `createAdminChat` accepts: a super admin with an admin or tenant admin, either way. */
  predicate AdminPairAllowed(initiatorRole: string, otherRole: string)
  {
    (initiatorRole == SUPER_ADMIN && IsTenantAdminRole(otherRole)) ||
    (IsTenantAdminRole(initiatorRole) && otherRole == SUPER_ADMIN)
  }

  lemma AdminPairSymmetric(a: string, b: string)
    ensures AdminPairAllowed(a, b) <==> AdminPairAllowed(b, a)
    ensures AdminPairAllowed(a, b) ==> ((a == SUPER_ADMIN) != (b == SUPER_ADMIN))
  {
  }

  /** Every admin pair may also open a direct room, in both directions. */
  lemma AdminPairsMayChatDirectly(a: string, ta: Option<Id>, b: string, tb: Option<Id>)
    requires AdminPairAllowed(a, b)
    ensures CanDirectChat(a, ta, b, tb) && CanDirectChat(b, tb, a, ta)
  {
  }

  // ---------------------------------------------------------------------
  // Finding an existing room
  // ---------------------------------------------------------------------

  /** `participants.userId: { $all: [a, b] }` on a room of the given type. */
  predicate PairRoom(room: RoomDoc, kind: RoomType, a: Id, b: Id)
  {
    room.kind == kind && IsParticipant(room, a) && IsParticipant(room, b)
  }

  /** The group lookup: same type, same name, same tenant. */
  predicate NamedGroup(room: RoomDoc, name: string, tenantId: Id)
  {
    room.kind == Group && room.name == name && room.tenantId == Some(tenantId)
  }

  function PairRoomAt(kind: RoomType, a: Id, b: Id): RoomDoc -> bool
  {
    room => PairRoom(room, kind, a, b)
  }

  function NamedGroupAt(name: string, tenantId: Id): RoomDoc -> bool
  {
    room => NamedGroup(room, name, tenantId)
  }

  /** `findOne`: the position of the first room that matches. */
  function FirstRoomWhere(rooms: seq<RoomDoc>, p: RoomDoc -> bool): (r: Option<nat>)
    ensures r.Some? ==> r.value < |rooms| && p(rooms[r.value])
    ensures r.Some? ==> forall j :: 0 <= j < r.value ==> !p(rooms[j])
    ensures r.None? ==> forall j :: 0 <= j < |rooms| ==> !p(rooms[j])
  {
    if rooms == [] then None
    else if p(rooms[0]) then Some(0)
    else
      match FirstRoomWhere(rooms[1..], p)
      case None => None
      case Some(i) => Some(i + 1)
  }

  /** A room appended after no earlier match is the one `findOne` returns. */
  lemma FirstRoomWhereAppended(rooms: seq<RoomDoc>, room: RoomDoc, p: RoomDoc -> bool)
    requires FirstRoomWhere(rooms, p).None? && p(room)
    ensures FirstRoomWhere(rooms + [room], p) == Some(|rooms|)
  {
    var s := rooms + [room];
    assert s[|rooms|] == room;
    assert forall j :: 0 <= j < |rooms| ==> s[j] == rooms[j];
  }

  /** Two participants: the caller as INITIATOR, then the other user as PARTICIPANT. */
  function PairParticipants(a: Id, b: Id, now: int): (ps: seq<Participant>)
    ensures ParticipantIds(ps) == [a, b]
    ensures |ps| == 2 && ps[0].role == INITIATOR && ps[1].role == PARTICIPANT
    ensures ps[0].joinedAt == now && ps[1].joinedAt == now
  {
    var ps := [NewParticipant(a, Some(INITIATOR), now), NewParticipant(b, Some(PARTICIPANT), now)];
    assert ParticipantIds(ps)[0] == a && ParticipantIds(ps)[1] == b;
    ps
  }

  lemma PairRoomHasBoth(room: RoomDoc, kind: RoomType, a: Id, b: Id, now: int)
    requires room.kind == kind && room.participants == PairParticipants(a, b, now)
    ensures PairRoom(room, kind, a, b) && PairRoom(room, kind, b, a)
  {
    assert ParticipantIds(room.participants)[0] == a;
    assert ParticipantIds(room.participants)[1] == b;
  }

  // ---------------------------------------------------------------------
  // createDirectRoom
  // ---------------------------------------------------------------------

  /** The checks before the permission rule: a given id, not oneself, an active user. */
  predicate DirectTargetValid(caller: Caller, otherId: Id, users: map<Id, UserRecord>)
  {
    otherId != "" && otherId != caller.id && ActiveUser(users, otherId)
  }

  predicate DirectChatAllowed(caller: Caller, otherId: Id, users: map<Id, UserRecord>)
  {
    DirectTargetValid(caller, otherId, users) &&
    CanDirectChat(caller.role, caller.tenantId, users[otherId].role, users[otherId].tenantId)
  }

  function DirectRoomName(a: Id, b: Id): string
  {
    "Chat - " + a + " & " + b
  }

  function CreateDirectRoom(caller: Caller, otherId: Id, users: map<Id, UserRecord>, rooms: seq<RoomDoc>,
                            newId: Id, now: int): (r: RoomOutcome)
    ensures otherId == "" ==> r == Refused(400, OTHER_USER_REQUIRED)
    ensures otherId != "" && otherId == caller.id ==> r == Refused(400, SELF_ROOM)
    ensures !r.Refused? <==> DirectChatAllowed(caller, otherId, users)
    ensures r.Refused? && r.status == 403 <==>
      DirectTargetValid(caller, otherId, users) && !DirectChatAllowed(caller, otherId, users)
    ensures r.Existing? ==> r.room in rooms && PairRoom(r.room, Direct, caller.id, otherId)
    ensures r.Created? ==>
      (forall j :: 0 <= j < |rooms| ==> !PairRoom(rooms[j], Direct, caller.id, otherId)) &&
      r.room.id == newId && r.room.kind == Direct && r.room.tenantId == caller.tenantId &&
      r.room.participants == PairParticipants(caller.id, otherId, now) &&
      PairRoom(r.room, Direct, caller.id, otherId) && SchemaValid(r.room)
  {
    if otherId == "" then Refused(400, OTHER_USER_REQUIRED)
    else if otherId == caller.id then Refused(400, SELF_ROOM)
    else if otherId !in users then Refused(404, USER_NOT_FOUND)
    else if users[otherId].status != ACTIVE then Refused(400, USER_NOT_ACTIVE)
    else if !CanDirectChat(caller.role, caller.tenantId, users[otherId].role, users[otherId].tenantId) then
      Refused(403, CANNOT_CHAT)
    else
      match FirstRoomWhere(rooms, PairRoomAt(Direct, caller.id, otherId))
      case Some(i) => Existing(rooms[i])
      case None =>
        var room := NewRoom(newId, DirectRoomName(caller.id, otherId), Some(Direct), caller.tenantId,
                            PairParticipants(caller.id, otherId, now), now);
        PairRoomHasBoth(room, Direct, caller.id, otherId, now);
        assert room.participants[0].role in ROOM_ROLES && room.participants[1].role in ROOM_ROLES;
        Created(room)
  }

  /**
   * Once a direct room is stored, asking again for the same pair, in either
   * order, finds that room, unless the second caller is refused first.
   */
  lemma DirectRoomFoundAgain(caller: Caller, other: Caller, users: map<Id, UserRecord>, rooms: seq<RoomDoc>,
                             newId: Id, newId2: Id, now: int, later: int)
    requires CreateDirectRoom(caller, other.id, users, rooms, newId, now).Created?
    ensures var room := CreateDirectRoom(caller, other.id, users, rooms, newId, now).room;
      CreateDirectRoom(caller, other.id, users, rooms + [room], newId2, later) == Existing(room) &&
      (DirectChatAllowed(other, caller.id, users) ==>
         CreateDirectRoom(other, caller.id, users, rooms + [room], newId2, later) == Existing(room))
  {
    var room := CreateDirectRoom(caller, other.id, users, rooms, newId, now).room;
    PairRoomHasBoth(room, Direct, caller.id, other.id, now);
    FirstRoomWhereAppended(rooms, room, PairRoomAt(Direct, caller.id, other.id));
    if DirectChatAllowed(other, caller.id, users) {
      assert FirstRoomWhere(rooms, PairRoomAt(Direct, other.id, caller.id)).None? by {
        forall j | 0 <= j < |rooms|
          ensures !PairRoomAt(Direct, other.id, caller.id)(rooms[j])
        {
          assert !PairRoom(rooms[j], Direct, caller.id, other.id);
        }
      }
      FirstRoomWhereAppended(rooms, room, PairRoomAt(Direct, other.id, caller.id));
      assert (rooms + [room])[|rooms|] == room;
    }
  }

  /** A created direct room is one the participant role enum as written refuses to save. */
  lemma DirectRoomRefusedAsWritten(caller: Caller, otherId: Id, users: map<Id, UserRecord>, rooms: seq<RoomDoc>,
                                   newId: Id, now: int)
    requires CreateDirectRoom(caller, otherId, users, rooms, newId, now).Created?
    ensures !SchemaValidAsWritten(CreateDirectRoom(caller, otherId, users, rooms, newId, now).room)
  {
    var room := CreateDirectRoom(caller, otherId, users, rooms, newId, now).room;
    InitiatorRefusedAsWritten(room, 0);
  }

  // ---------------------------------------------------------------------
  // createGroupRoom
  // ---------------------------------------------------------------------

  /** `[...new Set([caller, ...participantIds])]`. */
  function GroupMembers(callerId: Id, ids: seq<Id>): (r: seq<Id>)
    ensures Distinct(r) && |r| >= 1 && r[0] == callerId
    ensures forall x :: x in r <==> x == callerId || x in ids
  {
    var r := DedupKeepFirst([callerId] + ids);
    assert forall i :: 0 <= i < |ids| ==> ids[i] == ([callerId] + ids)[i + 1];
    r
  }

  /** A group of one happens exactly when every listed id is the caller's own. */
  lemma {:induction false} GroupTooSmallIff(callerId: Id, ids: seq<Id>)
    ensures |GroupMembers(callerId, ids)| < 2 <==> forall i :: 0 <= i < |ids| ==> ids[i] == callerId
  {
    var r := GroupMembers(callerId, ids);
    if forall i :: 0 <= i < |ids| ==> ids[i] == callerId {
      SubsetNotLarger(set p | p in r, {callerId});
      DistinctCard(r);
    } else {
      var i :| 0 <= i < |ids| && ids[i] != callerId;
      assert ids[i] in r;
      var k :| 0 <= k < |r| && r[k] == ids[i];
      assert k != 0;
    }
  }

  /** `User.find({ _id: { $in: participants }, status: 'ACTIVE' }).length`. */
  function ActiveCount(ps: seq<Id>, users: map<Id, UserRecord>): nat
  {
    |set p | p in ps && ActiveUser(users, p)|
  }

  lemma {:induction false} DistinctCard(ps: seq<Id>)
    requires Distinct(ps)
    ensures |set p | p in ps| == |ps|
  {
    if ps != [] {
      var init := ps[..|ps| - 1];
      var last := ps[|ps| - 1];
      assert Distinct(init);
      DistinctCard(init);
      assert last !in init;
      assert (set p | p in ps) == (set p | p in init) + {last};
    }
  }

  /** On distinct ids the count check is the check that every one is an active user. */
  lemma CountMatchesIffAllActive(ps: seq<Id>, users: map<Id, UserRecord>)
    requires Distinct(ps)
    ensures ActiveCount(ps, users) == |ps| <==> forall i :: 0 <= i < |ps| ==> ActiveUser(users, ps[i])
  {
    var found := set p | p in ps && ActiveUser(users, p);
    var all := set p | p in ps;
    DistinctCard(ps);
    if forall i :: 0 <= i < |ps| ==> ActiveUser(users, ps[i]) {
      forall p | p in all ensures p in found {
        var i :| 0 <= i < |ps| && ps[i] == p;
      }
      assert found == all;
    } else {
      var i :| 0 <= i < |ps| && !ActiveUser(users, ps[i]);
      StrictSubsetSmaller(found, all, ps[i]);
    }
  }

  lemma SubsetNotLarger<T>(a: set<T>, b: set<T>)
    requires a <= b
    ensures |a| <= |b|
  {
    var rest := b - a;
    assert b == a + rest && a * rest == {};
  }

  lemma StrictSubsetSmaller<T>(a: set<T>, b: set<T>, x: T)
    requires a <= b && x in b && x !in a
    ensures |a| < |b|
  {
    var rest := b - a;
    assert b == a + rest && a * rest == {};
    assert x in rest;
  }

  /** The participant sub-documents: the caller is the group's ADMIN, the rest PARTICIPANTs. */
  function GroupParticipants(ps: seq<Id>, callerId: Id, now: int): (r: seq<Participant>)
    ensures ParticipantIds(r) == ps
    ensures forall i :: 0 <= i < |r| ==>
      r[i].joinedAt == now && r[i].role == (if ps[i] == callerId then GROUP_ADMIN else PARTICIPANT)
  {
    var r := seq(|ps|, i requires 0 <= i < |ps| =>
                 Participant(ps[i], now, if ps[i] == callerId then GROUP_ADMIN else PARTICIPANT));
    assert ParticipantIds(r) == ps;
    r
  }

  predicate GroupRequestValid(caller: Caller, name: string, participantIds: Option<seq<Id>>, tenantId: Id,
                              users: map<Id, UserRecord>)
  {
    IsAdminRole(caller.role) && Trim(name) != "" &&
    participantIds.Some? && |participantIds.value| > 0 && tenantId != "" &&
    var ps := GroupMembers(caller.id, participantIds.value);
    |ps| >= 2 && forall i :: 0 <= i < |ps| ==> ActiveUser(users, ps[i])
  }

  /**
   * `participantIds` is `None` when it is missing or not an array. The new
   * group keeps `name` as given; only the blank check trims it.
   */
  function CreateGroupRoom(caller: Caller, name: string, participantIds: Option<seq<Id>>, tenantId: Id,
                           users: map<Id, UserRecord>, rooms: seq<RoomDoc>, newId: Id, now: int): (r: RoomOutcome)
  {
    if !IsAdminRole(caller.role) then Refused(403, GROUP_ADMINS_ONLY)
    else if name == "" || Trim(name) == "" then Refused(400, ROOM_NAME_REQUIRED)
    else if participantIds.None? || |participantIds.value| == 0 then Refused(400, PARTICIPANT_REQUIRED)
    else if tenantId == "" then Refused(400, TENANT_REQUIRED)
    else
      GroupOfMembers(GroupMembers(caller.id, participantIds.value), caller.id, name, tenantId, users, rooms, newId, now)
  }

  /**
   * The outcome of `createGroupRoom`: 403 exactly for a non-admin, success
   * exactly for a valid request, and then the find-or-create step on the
   * de-duplicated members.
   */
  lemma CreateGroupRoomOutcome(caller: Caller, name: string, participantIds: Option<seq<Id>>, tenantId: Id,
                               users: map<Id, UserRecord>, rooms: seq<RoomDoc>, newId: Id, now: int, r: RoomOutcome)
    requires r == CreateGroupRoom(caller, name, participantIds, tenantId, users, rooms, newId, now)
    ensures r.Refused? && r.status == 403 <==> !IsAdminRole(caller.role)
    ensures !IsAdminRole(caller.role) ==> r == Refused(403, GROUP_ADMINS_ONLY)
    ensures IsAdminRole(caller.role) && Trim(name) == "" ==> r == Refused(400, ROOM_NAME_REQUIRED)
    ensures !r.Refused? <==> GroupRequestValid(caller, name, participantIds, tenantId, users)
    ensures !r.Refused? ==>
      r == GroupFoundOrCreated(GroupMembers(caller.id, participantIds.value), caller.id, name, tenantId, rooms, newId, now)
  {
    if !IsAdminRole(caller.role) || name == "" || Trim(name) == "" {
    } else if participantIds.None? || |participantIds.value| == 0 || tenantId == "" {
    } else {
      var ps := GroupMembers(caller.id, participantIds.value);
      assert r == GroupOfMembers(ps, caller.id, name, tenantId, users, rooms, newId, now);
    }
  }

  /** `createGroupRoom` once the request is well formed: the member checks, then find or create. */
  function GroupOfMembers(ps: seq<Id>, callerId: Id, name: string, tenantId: Id, users: map<Id, UserRecord>,
                          rooms: seq<RoomDoc>, newId: Id, now: int): (r: RoomOutcome)
    requires Distinct(ps) && |ps| >= 1 && ps[0] == callerId && name != ""
    ensures r.Refused? ==> r == Refused(400, GROUP_TOO_SMALL) || r == Refused(404, PARTICIPANTS_INACTIVE)
    ensures !r.Refused? <==> |ps| >= 2 && forall i :: 0 <= i < |ps| ==> ActiveUser(users, ps[i])
    ensures !r.Refused? ==> r == GroupFoundOrCreated(ps, callerId, name, tenantId, rooms, newId, now)
  {
    if |ps| < 2 then Refused(400, GROUP_TOO_SMALL)
    else
      CountMatchesIffAllActive(ps, users);
      if ActiveCount(ps, users) != |ps| then Refused(404, PARTICIPANTS_INACTIVE)
      else GroupFoundOrCreated(ps, callerId, name, tenantId, rooms, newId, now)
  }

  /** The last step of `createGroupRoom`: the first group of that name in the tenant, or a new one. */
  function GroupFoundOrCreated(ps: seq<Id>, callerId: Id, name: string, tenantId: Id, rooms: seq<RoomDoc>,
                               newId: Id, now: int): (r: RoomOutcome)
    requires Distinct(ps) && |ps| >= 2 && ps[0] == callerId && name != ""
    ensures r.Existing? || r.Created?
    ensures r.Existing? ==> r.room in rooms && NamedGroup(r.room, name, tenantId)
    ensures r.Created? ==>
      (forall j :: 0 <= j < |rooms| ==> !NamedGroup(rooms[j], name, tenantId)) &&
      r.room.id == newId && NamedGroup(r.room, name, tenantId) &&
      ParticipantIds(r.room.participants) == ps && |r.room.participants| >= 2 &&
      r.room.participants[0] == Participant(callerId, now, GROUP_ADMIN) &&
      (forall i :: 1 <= i < |r.room.participants| ==> r.room.participants[i].role == PARTICIPANT) &&
      SchemaValid(r.room)
  {
    var named := NamedGroupAt(name, tenantId);
    match FirstRoomWhere(rooms, named)
    case Some(i) =>
      assert named(rooms[i]);
      Existing(rooms[i])
    case None =>
      assert forall j :: 0 <= j < |rooms| ==> !named(rooms[j]);
      var room := NewGroupRoom(ps, callerId, name, tenantId, newId, now);
      assert |room.participants| == |ParticipantIds(room.participants)|;
      Created(room)
  }

  /** The new group document for the member list `ps`, which starts with the caller. */
  function NewGroupRoom(ps: seq<Id>, callerId: Id, name: string, tenantId: Id, newId: Id, now: int): (room: RoomDoc)
    requires Distinct(ps) && |ps| >= 2 && ps[0] == callerId && name != ""
    ensures room.id == newId && NamedGroup(room, name, tenantId)
    ensures ParticipantIds(room.participants) == ps
    ensures room.participants[0] == Participant(callerId, now, GROUP_ADMIN)
    ensures forall i :: 1 <= i < |room.participants| ==> room.participants[i].role == PARTICIPANT
    ensures SchemaValid(room)
  {
    var docs := GroupParticipants(ps, callerId, now);
    assert forall i :: 1 <= i < |ps| ==> ps[i] != ps[0];
    assert ParticipantIds(docs)[0] == docs[0].userId;
    NewRoom(newId, name, Some(Group), Some(tenantId), docs, now)
  }

  /** Caller listed twice or only themself: still one member, so 400. */
  lemma GroupOfOneRefused(caller: Caller, name: string, ids: seq<Id>, tenantId: Id,
                          users: map<Id, UserRecord>, rooms: seq<RoomDoc>, newId: Id, now: int)
    requires IsAdminRole(caller.role) && Trim(name) != "" && |ids| > 0 && tenantId != ""
    requires forall i :: 0 <= i < |ids| ==> ids[i] == caller.id
    ensures CreateGroupRoom(caller, name, Some(ids), tenantId, users, rooms, newId, now) == Refused(400, GROUP_TOO_SMALL)
  {
    var r := CreateGroupRoom(caller, name, Some(ids), tenantId, users, rooms, newId, now);
    var ps := GroupMembers(caller.id, ids);
    GroupTooSmallIff(caller.id, ids);
    assert |ps| < 2;
    assert r == GroupOfMembers(ps, caller.id, name, tenantId, users, rooms, newId, now);
  }

  /** A created group has a PARTICIPANT, a role the enum as written refuses to save. */
  lemma GroupRoomRefusedAsWritten(caller: Caller, name: string, participantIds: Option<seq<Id>>, tenantId: Id,
                                  users: map<Id, UserRecord>, rooms: seq<RoomDoc>, newId: Id, now: int)
    requires CreateGroupRoom(caller, name, participantIds, tenantId, users, rooms, newId, now).Created?
    ensures !SchemaValidAsWritten(CreateGroupRoom(caller, name, participantIds, tenantId, users, rooms, newId, now).room)
  {
    var r := CreateGroupRoom(caller, name, participantIds, tenantId, users, rooms, newId, now);
    CreateGroupRoomOutcome(caller, name, participantIds, tenantId, users, rooms, newId, now, r);
    ParticipantRefusedAsWritten(r.room, 1);
  }

  // ---------------------------------------------------------------------
  // createAdminChat
  // ---------------------------------------------------------------------

  predicate AdminChatAllowed(caller: Caller, adminId: Id, users: map<Id, UserRecord>)
  {
    adminId != "" && adminId != caller.id && ActiveUser(users, adminId) &&
    AdminPairAllowed(caller.role, users[adminId].role)
  }

  function AdminChatName(initiatorRole: string, otherRole: string): string
  {
    "Admin Chat - " + initiatorRole + " & " + otherRole
  }

  function CreateAdminChat(caller: Caller, adminId: Id, users: map<Id, UserRecord>, rooms: seq<RoomDoc>,
                           newId: Id, now: int): (r: RoomOutcome)
    ensures !IsAdminRole(caller.role) ==> r == Refused(403, ADMIN_CHAT_UNAUTHORIZED)
    ensures !r.Refused? <==> AdminChatAllowed(caller, adminId, users)
    ensures r.Refused? && r.status == 403 <==>
      !IsAdminRole(caller.role) ||
      (adminId != "" && adminId != caller.id && ActiveUser(users, adminId) &&
       !AdminPairAllowed(caller.role, users[adminId].role))
    ensures r.Existing? ==> r.room in rooms && PairRoom(r.room, AdminChat, caller.id, adminId)
    ensures r.Created? ==>
      (forall j :: 0 <= j < |rooms| ==> !PairRoom(rooms[j], AdminChat, caller.id, adminId)) &&
      r.room.id == newId && r.room.kind == AdminChat && r.room.tenantId.None? &&
      r.room.participants == PairParticipants(caller.id, adminId, now) &&
      PairRoom(r.room, AdminChat, caller.id, adminId) && SchemaValid(r.room)
  {
    if !IsAdminRole(caller.role) then Refused(403, ADMIN_CHAT_UNAUTHORIZED)
    else if adminId == "" then Refused(400, ADMIN_ID_REQUIRED)
    else if adminId == caller.id then Refused(400, SELF_CHAT)
    else if adminId !in users then Refused(404, USER_NOT_FOUND)
    else if users[adminId].status != ACTIVE then Refused(400, USER_NOT_ACTIVE)
    else if !IsAdminRole(users[adminId].role) then Refused(403, ADMIN_ROLE_REQUIRED)
    else if !AdminPairAllowed(caller.role, users[adminId].role) then Refused(403, ADMIN_CHAT_DENIED)
    else
      match FirstRoomWhere(rooms, PairRoomAt(AdminChat, caller.id, adminId))
      case Some(i) => Existing(rooms[i])
      case None =>
        var room := NewRoom(newId, AdminChatName(caller.role, users[adminId].role), Some(AdminChat), None,
                            PairParticipants(caller.id, adminId, now), now);
        PairRoomHasBoth(room, AdminChat, caller.id, adminId, now);
        assert room.participants[0].role in ROOM_ROLES && room.participants[1].role in ROOM_ROLES;
        Created(room)
  }

  /** Two tenant admins, or two super admins, are refused with 403 even when both are active. */
  lemma AdminPeersDenied(caller: Caller, adminId: Id, users: map<Id, UserRecord>, rooms: seq<RoomDoc>,
                         newId: Id, now: int)
    requires adminId != "" && adminId != caller.id && ActiveUser(users, adminId)
    requires (IsTenantAdminRole(caller.role) && IsTenantAdminRole(users[adminId].role)) ||
             (caller.role == SUPER_ADMIN && users[adminId].role == SUPER_ADMIN)
    ensures CreateAdminChat(caller, adminId, users, rooms, newId, now) == Refused(403, ADMIN_CHAT_DENIED)
  {
  }

  /** A created admin chat is one the participant role enum as written refuses to save. */
  lemma AdminChatRefusedAsWritten(caller: Caller, adminId: Id, users: map<Id, UserRecord>, rooms: seq<RoomDoc>,
                                  newId: Id, now: int)
    requires CreateAdminChat(caller, adminId, users, rooms, newId, now).Created?
    ensures !SchemaValidAsWritten(CreateAdminChat(caller, adminId, users, rooms, newId, now).room)
  {
    var room := CreateAdminChat(caller, adminId, users, rooms, newId, now).room;
    InitiatorRefusedAsWritten(room, 0);
  }

  // ---------------------------------------------------------------------
  // Pagination of the room listing
  // ---------------------------------------------------------------------

  datatype PageRequest = PageRequest(page: int, limit: int, skip: int)
  datatype PageOutcome = PageOk(req: PageRequest) | PageRefused(status: int, message: string)

  /**
   * `parseInt(page) || 1`, `parseInt(limit) || 50`, then the range check.
   * `None` is a parameter that is missing or does not parse.
   */
  function Paginate(rawPage: Option<int>, rawLimit: Option<int>): (r: PageOutcome)
    ensures r.PageOk? <==>
      (rawPage.None? || rawPage.value >= 0) && (rawLimit.None? || 0 <= rawLimit.value <= MAX_LIMIT)
    ensures r.PageRefused? ==> r == PageRefused(400, INVALID_PAGINATION)
    ensures r.PageOk? ==>
      1 <= r.req.page && 1 <= r.req.limit <= MAX_LIMIT &&
      r.req.skip == (r.req.page - 1) * r.req.limit && 0 <= r.req.skip
    ensures r.PageOk? && rawPage.Some? && rawPage.value > 0 ==> r.req.page == rawPage.value
    ensures r.PageOk? && rawLimit.Some? && rawLimit.value > 0 ==> r.req.limit == rawLimit.value
  {
    var page := ParseIntOr(rawPage, DEFAULT_PAGE);
    var limit := ParseIntOr(rawLimit, DEFAULT_LIMIT);
    var skip := (page - 1) * limit;
    if page < 1 || limit < 1 || limit > MAX_LIMIT then PageRefused(400, INVALID_PAGINATION)
    else PageOk(PageRequest(page, limit, skip))
  }

  /** Page 0 and limit 0 read as the defaults, because zero is falsy. */
  lemma ZeroMeansDefault(rawLimit: Option<int>)
    ensures Paginate(Some(0), rawLimit) == Paginate(None, rawLimit)
    ensures Paginate(Some(0), Some(0)) == PageOk(PageRequest(DEFAULT_PAGE, DEFAULT_LIMIT, 0))
  {
  }

  /** Every stored row lies on exactly one valid page, and that page is accepted. */
  lemma {:induction false} RowOnPage(total: nat, limit: int, k: nat)
    requires 1 <= limit <= MAX_LIMIT && k < total
    ensures var p := k / limit + 1;
      1 <= p <= PageCount(total, limit) &&
      Paginate(Some(p), Some(limit)) == PageOk(PageRequest(p, limit, (p - 1) * limit)) &&
      (p - 1) * limit <= k < p * limit
  {
    var p := k / limit + 1;
    RowWindow(k, limit);
    assert Paginate(Some(p), Some(limit)) == PageOk(PageRequest(p, limit, (p - 1) * limit));
    var n := PageCount(total, limit);
    if n < p {
      MulMonotone(n, p - 1, limit);
      assert false;
    }
  }

  /** Row `k` lies in the `k / limit + 1`-th window of `limit` rows. */
  lemma RowWindow(k: nat, limit: int)
    requires limit >= 1
    ensures var p := k / limit + 1;
      (p - 1) * limit <= k < p * limit
  {
    var q := k / limit;
    assert k == q * limit + k % limit;
    assert (q + 1) * limit == q * limit + limit;
  }

  lemma MulMonotone(a: nat, b: nat, c: int)
    requires a <= b && c >= 1
    ensures a * c <= b * c
  {
  }

  // ---------------------------------------------------------------------
  // getAvailableUsersToChat: de-duplication by id
  // ---------------------------------------------------------------------

  /** The projection `_id name email avatar role`. */
  datatype UserSummary = UserSummary(id: Id, name: string, email: string, avatar: Option<string>, role: string)

  function Ids(us: seq<UserSummary>): (r: seq<Id>)
    ensures |r| == |us|
    ensures forall i :: 0 <= i < |us| ==> r[i] == us[i].id
  {
    seq(|us|, i requires 0 <= i < |us| => us[i].id)
  }

  /** The last entry of `us` with the given id. */
  function LastWithId(us: seq<UserSummary>, id: Id): (r: Option<UserSummary>)
    ensures r.Some? ==> r.value in us && r.value.id == id
    ensures r.None? <==> id !in Ids(us)
  {
    if us == [] then None
    else if us[|us| - 1].id == id then Some(us[|us| - 1])
    else
      var r := LastWithId(us[..|us| - 1], id);
      assert Ids(us[..|us| - 1]) == Ids(us)[..|us| - 1];
      r
  }

  /** The position of the first entry with the given id. */
  function IndexOfId(es: seq<UserSummary>, id: Id): (r: Option<nat>)
    ensures r.Some? ==> r.value < |es| && es[r.value].id == id
    ensures r.Some? ==> forall j :: 0 <= j < r.value ==> es[j].id != id
    ensures r.None? <==> id !in Ids(es)
  {
    if es == [] then None
    else if es[0].id == id then Some(0)
    else
      var r := IndexOfId(es[1..], id);
      assert Ids(es) == [es[0].id] + Ids(es[1..]);
      if r.None? then None else Some(r.value + 1)
  }

  /**
   * `map.set(key, value)` on a `Map` kept as its entries in insertion order:
   * a known key keeps its place and takes the new value, a new key goes last.
   */
  function MapSet(es: seq<UserSummary>, u: UserSummary): (r: seq<UserSummary>)
    ensures u.id in Ids(es) ==> Ids(r) == Ids(es)
    ensures u.id !in Ids(es) ==> Ids(r) == Ids(es) + [u.id]
  {
    match IndexOfId(es, u.id)
    case Some(i) =>
      var r := es[i := u];
      assert Ids(r) == Ids(es);
      r
    case None =>
      var r := es + [u];
      assert Ids(r) == Ids(es) + [u.id];
      r
  }

  /** `Array.from(new Map(users.map(u => [u._id, u])).values())`. */
  function UniqueById(us: seq<UserSummary>): seq<UserSummary>
  {
    if us == [] then [] else MapSet(UniqueById(us[..|us| - 1]), us[|us| - 1])
  }

  /** The ids come out once each, in order of first appearance. */
  lemma {:induction false} UniqueByIdOrder(us: seq<UserSummary>)
    ensures Ids(UniqueById(us)) == DedupKeepFirst(Ids(us))
    ensures Distinct(Ids(UniqueById(us)))
  {
    if us != [] {
      var init := us[..|us| - 1];
      var u := us[|us| - 1];
      var prev := UniqueById(init);
      UniqueByIdOrder(init);
      assert Ids(us)[..|us| - 1] == Ids(init);
      assert Ids(us)[|us| - 1] == u.id;
      var d := DedupKeepFirst(Ids(init));
      assert u.id in Ids(prev) <==> u.id in Ids(init) by {
        if u.id in Ids(init) {
          var k :| 0 <= k < |Ids(init)| && Ids(init)[k] == u.id;
          assert Ids(init)[k] in d;
        }
      }
    }
  }

  /** Each entry is the last user listed under its id. */
  lemma {:induction false} UniqueByIdLastWins(us: seq<UserSummary>)
    ensures forall i :: 0 <= i < |UniqueById(us)| ==> LastWithId(us, UniqueById(us)[i].id) == Some(UniqueById(us)[i])
  {
    if us != [] {
      var init := us[..|us| - 1];
      var u := us[|us| - 1];
      var prev := UniqueById(init);
      UniqueByIdLastWins(init);
      UniqueByIdOrder(init);
      var r := UniqueById(us);
      match IndexOfId(prev, u.id)
      case Some(i0) =>
        assert r == prev[i0 := u];
        forall j | 0 <= j < |r| ensures LastWithId(us, r[j].id) == Some(r[j]) {
          if j != i0 {
            assert Ids(prev)[j] != Ids(prev)[i0];
          }
        }
      case None =>
        assert r == prev + [u];
        forall j | 0 <= j < |r| ensures LastWithId(us, r[j].id) == Some(r[j]) {
          if j < |prev| {
            assert Ids(prev)[j] == prev[j].id;
          }
        }
    }
  }

  // ---------------------------------------------------------------------
  // Message handlers
  // ---------------------------------------------------------------------

  /** What a message handler answers and leaves in the store. */
  datatype StoreStep = StoreStep(status: int, message: string, rooms: map<Id, RoomDoc>,
                                 messages: map<Id, MessageRecord>, updated: nat)

  /**
   * `markRoomAsRead`: drop the caller's unread entry, then push a receipt
   * onto every message of the room from someone else that the caller has not
   * read. Being a participant is not checked.
   */
  function RoomReadSpec(rooms: map<Id, RoomDoc>, messages: map<Id, MessageRecord>, roomId: Id, user: Id,
                        now: int): (r: StoreStep)
    ensures r.status == 200 <==> roomId != "" && roomId in rooms
    ensures r.status != 200 ==> r.rooms == rooms && r.messages == messages
    ensures roomId == "" ==> r.status == 400 && r.message == ROOM_ID_REQUIRED
  {
    if roomId == "" then StoreStep(400, ROOM_ID_REQUIRED, rooms, messages, 0)
    else if roomId !in rooms then StoreStep(404, ROOM_NOT_FOUND, rooms, messages, 0)
    else
      var ms := map k | k in messages ::
        if SocketState.UnreadBy(messages[k], roomId, user) then SocketState.WithReceipt(messages[k], user, now)
        else messages[k];
      StoreStep(200, ROOM_MARKED_READ, rooms[roomId := UnreadCleared(rooms[roomId], user)], ms, 0)
  }

  /**
   * After a successful call: no unread entry for the caller, every message
   * of the room from someone else carries the caller's receipt, and nothing
   * outside the room changed.
   */
  lemma RoomReadEffects(rooms: map<Id, RoomDoc>, messages: map<Id, MessageRecord>, roomId: Id, user: Id, now: int)
    requires roomId != "" && roomId in rooms
    ensures var r := RoomReadSpec(rooms, messages, roomId, user, now);
      r.rooms.Keys == rooms.Keys && r.messages.Keys == messages.Keys &&
      UnreadOf(r.rooms[roomId].unreadCount, user) == 0 &&
      (forall k :: k in rooms && k != roomId ==> r.rooms[k] == rooms[k]) &&
      (forall k :: k in messages && messages[k].roomId == roomId && messages[k].senderId != user ==>
         HasRead(r.messages[k], user)) &&
      (forall k :: k in messages && messages[k].roomId != roomId ==> r.messages[k] == messages[k]) &&
      (forall k :: k in messages && HasRead(messages[k], user) ==> r.messages[k] == messages[k])
  {
  }

  /** Marking a room read twice is marking it once. */
  lemma RoomReadIdempotent(rooms: map<Id, RoomDoc>, messages: map<Id, MessageRecord>, roomId: Id, user: Id,
                           t1: int, t2: int)
    ensures var r1 := RoomReadSpec(rooms, messages, roomId, user, t1);
      var r2 := RoomReadSpec(r1.rooms, r1.messages, roomId, user, t2);
      r2.rooms == r1.rooms && r2.messages == r1.messages && r2.status == r1.status
  {
    var r1 := RoomReadSpec(rooms, messages, roomId, user, t1);
    if roomId != "" && roomId in rooms {
      RoomReadEffects(rooms, messages, roomId, user, t1);
      var r2 := RoomReadSpec(r1.rooms, r1.messages, roomId, user, t2);
      forall k | k in r1.messages ensures !SocketState.UnreadBy(r1.messages[k], roomId, user) {
      }
      assert r2.messages == r1.messages;
      assert r2.rooms == r1.rooms;
    }
  }

  /** `editMessage`: content is required before the lookup, then sender, then not deleted. */
  function EditSpec(messages: map<Id, MessageRecord>, rooms: map<Id, RoomDoc>, messageId: Id, user: Id,
                    content: string, now: int): (r: StoreStep)
    ensures r.status == 200 <==>
      content != "" && messageId in messages && messages[messageId].senderId == user &&
      !messages[messageId].isDeleted
    ensures r.status == 200 ==>
      messageId in r.messages && r.messages == messages[messageId := r.messages[messageId]] &&
      r.messages[messageId].content == content && r.messages[messageId].isEdited &&
      r.messages[messageId].editedAt == Some(now) &&
      r.messages[messageId].(content := messages[messageId].content, isEdited := messages[messageId].isEdited,
                             editedAt := messages[messageId].editedAt) == messages[messageId]
    ensures r.status != 200 ==> r.messages == messages
    ensures r.rooms == rooms
  {
    if content == "" then StoreStep(400, CONTENT_REQUIRED, rooms, messages, 0)
    else if messageId !in messages then StoreStep(404, MESSAGE_NOT_FOUND, rooms, messages, 0)
    else
      var m := messages[messageId];
      if m.senderId != user then StoreStep(403, ONLY_SENDER_EDITS, rooms, messages, 0)
      else if m.isDeleted then StoreStep(400, EDIT_DELETED, rooms, messages, 0)
      else
        StoreStep(200, MESSAGE_UPDATED, rooms,
                  messages[messageId := m.(content := content, isEdited := true, editedAt := Some(now))], 0)
  }

  /** `deleteMessage`: the sender or a super admin soft-deletes, stamping the caller. */
  function DeleteSpec(messages: map<Id, MessageRecord>, rooms: map<Id, RoomDoc>, messageId: Id, caller: Caller,
                      now: int): (r: StoreStep)
    ensures r.status == 200 <==>
      messageId in messages && (messages[messageId].senderId == caller.id || caller.role == SUPER_ADMIN)
    ensures r.status == 200 ==>
      r.messages == messages[messageId := SoftDeleted(messages[messageId], caller.id, now)] &&
      r.messages[messageId].deletedBy == Some(caller.id)
    ensures r.status != 200 ==> r.messages == messages
    ensures r.rooms == rooms
  {
    if messageId !in messages then StoreStep(404, MESSAGE_NOT_FOUND, rooms, messages, 0)
    else
      var m := messages[messageId];
      if m.senderId != caller.id && caller.role != SUPER_ADMIN then StoreStep(403, ONLY_SENDER_DELETES, rooms, messages, 0)
      else StoreStep(200, MESSAGE_DELETED, rooms, messages[messageId := SoftDeleted(m, caller.id, now)], 0)
  }

  /** A message the REST handler deleted can no longer be edited over REST, not even by its sender. */
  lemma DeletedThenEditRefused(messages: map<Id, MessageRecord>, rooms: map<Id, RoomDoc>, messageId: Id,
                               caller: Caller, content: string, t1: int, t2: int)
    requires DeleteSpec(messages, rooms, messageId, caller, t1).status == 200 && content != ""
    requires messages[messageId].senderId == caller.id
    ensures var d := DeleteSpec(messages, rooms, messageId, caller, t1);
      EditSpec(d.messages, d.rooms, messageId, caller.id, content, t2) ==
        StoreStep(400, EDIT_DELETED, d.rooms, d.messages, 0)
  {
  }

  /** Deleting an already deleted message succeeds again and re-stamps who deleted it. */
  lemma DeleteRestamps(messages: map<Id, MessageRecord>, rooms: map<Id, RoomDoc>, messageId: Id,
                       sender: Caller, admin: Caller, t1: int, t2: int)
    requires messageId in messages && messages[messageId].senderId == sender.id
    requires admin.role == SUPER_ADMIN && admin.id != sender.id
    ensures var d1 := DeleteSpec(messages, rooms, messageId, sender, t1);
      var d2 := DeleteSpec(d1.messages, d1.rooms, messageId, admin, t2);
      d2.status == 200 && d2.messages[messageId].deletedBy == Some(admin.id) &&
      d2.messages[messageId].deletedAt == Some(t2)
  {
  }

  /** The selection of `markMessageAsDelivered`. */
  predicate Deliverable(m: MessageRecord, roomId: Id, user: Id)
  {
    m.roomId == roomId && m.status == Sent && m.senderId != user && !m.isDeleted
  }

  function DeliverableIds(messages: map<Id, MessageRecord>, roomId: Id, user: Id): set<Id>
  {
    set k | k in messages && Deliverable(messages[k], roomId, user)
  }

  /**
   * `markMessageAsDelivered`: every selected message becomes "delivered" at
   * `now`; `updated` is how many were selected.
   */
  function DeliverSpec(messages: map<Id, MessageRecord>, rooms: map<Id, RoomDoc>, roomId: Id, user: Id,
                       now: int): (r: StoreStep)
    ensures roomId == "" ==> r.status == 400 && r.messages == messages
    ensures roomId != "" ==> r.status == 200 && r.updated == |DeliverableIds(messages, roomId, user)|
    ensures r.messages.Keys == messages.Keys && r.rooms == rooms
    ensures forall k :: k in messages && roomId != "" && Deliverable(messages[k], roomId, user) ==>
      r.messages[k] == messages[k].(status := Delivered, deliveredAt := Some(now))
    ensures forall k :: k in messages && (roomId == "" || !Deliverable(messages[k], roomId, user)) ==>
      r.messages[k] == messages[k]
  {
    if roomId == "" then StoreStep(400, ROOM_ID_REQUIRED, rooms, messages, 0)
    else
      var ids := DeliverableIds(messages, roomId, user);
      if |ids| == 0 then
        assert ids == {};
        assert forall k :: k in messages && Deliverable(messages[k], roomId, user) ==> k in ids;
        StoreStep(200, NOTHING_TO_DELIVER, rooms, messages, 0)
      else
        var ms := map k | k in messages ::
          if k in ids then messages[k].(status := Delivered, deliveredAt := Some(now)) else messages[k];
        StoreStep(200, MESSAGES_DELIVERED, rooms, ms, |ids|)
  }

  /** A second call finds nothing left to deliver and changes nothing. */
  lemma DeliverIdempotent(messages: map<Id, MessageRecord>, rooms: map<Id, RoomDoc>, roomId: Id, user: Id,
                          t1: int, t2: int)
    requires roomId != ""
    ensures var r1 := DeliverSpec(messages, rooms, roomId, user, t1);
      var r2 := DeliverSpec(r1.messages, r1.rooms, roomId, user, t2);
      r2.updated == 0 && r2.messages == r1.messages
  {
    var r1 := DeliverSpec(messages, rooms, roomId, user, t1);
    assert DeliverableIds(r1.messages, roomId, user) == {} by {
      forall k | k in r1.messages ensures !Deliverable(r1.messages[k], roomId, user) {
      }
    }
  }

  /**
   * A message that `send_message` stored is "sent", so the REST handler
   * delivers it to anyone but its sender; the schema's `markAsDelivered`,
   * which only moves "sending" messages, leaves it alone.
   */
  lemma SocketMessagesDeliveredOverRest(id: Id, roomId: Id, sender: Id, content: string, t: int, user: Id, now: int)
    requires user != sender
    ensures var m := SocketState.SentMessage(id, roomId, sender, content, t);
      Deliverable(m, roomId, user) && MarkedDelivered(m, now) == m
  {
  }

  // ---------------------------------------------------------------------
  // The documents the handlers change
  // ---------------------------------------------------------------------

  class ChatStore {
    var rooms: map<Id, RoomDoc>
    var messages: map<Id, MessageRecord>

    constructor(rooms: map<Id, RoomDoc>, messages: map<Id, MessageRecord>)
      ensures this.rooms == rooms && this.messages == messages
    {
      this.rooms := rooms;
      this.messages := messages;
    }

    method MarkRoomAsRead(roomId: Id, user: Id, now: int) returns (status: int, message: string)
      modifies this
      ensures var s := RoomReadSpec(old(rooms), old(messages), roomId, user, now);
        status == s.status && message == s.message && rooms == s.rooms && messages == s.messages
    {
      if roomId == "" {
        return 400, ROOM_ID_REQUIRED;
      }
      if roomId !in rooms {
        return 404, ROOM_NOT_FOUND;
      }
      var room := rooms[roomId];
      if user in room.unreadCount {
        rooms := rooms[roomId := room.(unreadCount := room.unreadCount - {user})];
      }
      messages := map k | k in messages ::
        if SocketState.UnreadBy(messages[k], roomId, user) then SocketState.WithReceipt(messages[k], user, now)
        else messages[k];
      return 200, ROOM_MARKED_READ;
    }

    method EditMessage(messageId: Id, user: Id, content: string, now: int) returns (status: int, message: string)
      modifies this
      ensures var s := EditSpec(old(messages), old(rooms), messageId, user, content, now);
        status == s.status && message == s.message && rooms == s.rooms && messages == s.messages
    {
      if content == "" {
        return 400, CONTENT_REQUIRED;
      }
      if messageId !in messages {
        return 404, MESSAGE_NOT_FOUND;
      }
      var m := messages[messageId];
      if m.senderId != user {
        return 403, ONLY_SENDER_EDITS;
      }
      if m.isDeleted {
        return 400, EDIT_DELETED;
      }
      m := m.(content := content);
      m := m.(isEdited := true);
      m := m.(editedAt := Some(now));
      messages := messages[messageId := m];
      return 200, MESSAGE_UPDATED;
    }

    method DeleteMessage(messageId: Id, caller: Caller, now: int) returns (status: int, message: string)
      modifies this
      ensures var s := DeleteSpec(old(messages), old(rooms), messageId, caller, now);
        status == s.status && message == s.message && rooms == s.rooms && messages == s.messages
    {
      if messageId !in messages {
        return 404, MESSAGE_NOT_FOUND;
      }
      var m := messages[messageId];
      if m.senderId != caller.id && caller.role != SUPER_ADMIN {
        return 403, ONLY_SENDER_DELETES;
      }
      messages := messages[messageId := SoftDeleted(m, caller.id, now)];
      return 200, MESSAGE_DELETED;
    }

    method MarkMessagesDelivered(roomId: Id, user: Id, now: int) returns (status: int, message: string, updated: nat)
      modifies this
      ensures var s := DeliverSpec(old(messages), old(rooms), roomId, user, now);
        status == s.status && message == s.message && updated == s.updated &&
        rooms == s.rooms && messages == s.messages
    {
      if roomId == "" {
        return 400, ROOM_ID_REQUIRED, 0;
      }
      var ids := set k | k in messages && Deliverable(messages[k], roomId, user);
      if |ids| == 0 {
        return 200, NOTHING_TO_DELIVER, 0;
      }
      messages := map k | k in messages ::
        if k in ids then messages[k].(status := Delivered, deliveredAt := Some(now)) else messages[k];
      return 200, MESSAGES_DELIVERED, |ids|;
    }
  }
}
