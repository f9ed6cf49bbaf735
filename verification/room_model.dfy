/**
 * The room schema: the room-type enum with its default, the tenant
 * requirement that depends on the type, the participant sub-document with
 * its role enum, and the defaults of the unread-counter map and the archive
 * flag. Saving a room runs these checks; `SchemaValid` is what a save
 * accepts.
 */
module RoomModel {
  import opened Common

  datatype RoomType = AdminUser | Group | Direct | AdminChat

  function RoomTypeName(t: RoomType): string
  {
    match t
    case AdminUser => "ADMIN_USER"
    case Group => "GROUP"
    case Direct => "DIRECT"
    case AdminChat => "ADMIN_CHAT"
  }

  /** The enum check on `type`. */
  function ParseRoomType(name: string): (r: Option<RoomType>)
    ensures r.Some? ==> RoomTypeName(r.value) == name
    ensures r.None? ==> forall t: RoomType :: RoomTypeName(t) != name
  {
    if name == "ADMIN_USER" then Some(AdminUser)
    else if name == "GROUP" then Some(Group)
    else if name == "DIRECT" then Some(Direct)
    else if name == "ADMIN_CHAT" then Some(AdminChat)
    else None
  }

  lemma RoomTypeRoundTrip(t: RoomType)
    ensures ParseRoomType(RoomTypeName(t)) == Some(t)
  {
  }

  /** An absent `type` takes the schema default. */
  function RoomTypeOrDefault(t: Option<RoomType>): (r: RoomType)
    ensures t.None? ==> r == AdminUser
    ensures t.Some? ==> r == t.value
  {
    if t.Some? then t.value else AdminUser
  }

  /** The `required` function of `tenantId`. */
  predicate TenantRequired(t: RoomType)
  {
    t != AdminChat && t != Direct
  }

  lemma TenantRequiredExactly(t: RoomType)
    ensures TenantRequired(t) <==> RoomTypeName(t) in {"ADMIN_USER", "GROUP"}
    ensures !TenantRequired(t) <==> RoomTypeName(t) in {"DIRECT", "ADMIN_CHAT"}
  {
  }

  /** The participant `role` enum exactly as the schema lists it. */
  const SCHEMA_ROLES_AS_WRITTEN: seq<string> := ["OWNER", "ADMIN", "MEMBER"]

  /**
   * The role enum the controllers need: the schema's three roles plus the
   * INITIATOR and PARTICIPANT roles that direct, admin and group rooms are
   * created with.
   */
  const ROOM_ROLES: seq<string> := SCHEMA_ROLES_AS_WRITTEN + ["INITIATOR", "PARTICIPANT"]

  const DEFAULT_ROLE := "MEMBER"

  datatype Participant = Participant(userId: Id, joinedAt: int, role: string)

  /** A participant sub-document with its defaults: joined now, role MEMBER. */
  function NewParticipant(userId: Id, role: Option<string>, now: int): (p: Participant)
    ensures p.userId == userId && p.joinedAt == now
    ensures role.None? ==> p.role == DEFAULT_ROLE && p.role in SCHEMA_ROLES_AS_WRITTEN
    ensures role.Some? ==> p.role == role.value
  {
    Participant(userId, now, if role.Some? then role.value else DEFAULT_ROLE)
  }

  datatype RoomDoc = RoomDoc(
    id: Id,
    name: string,
    kind: RoomType,
    tenantId: Option<Id>,
    participants: seq<Participant>,
    lastMessage: Option<Id>,
    lastMessageTime: Option<int>,
    unreadCount: map<Id, int>,
    isArchived: bool,
    createdAt: int,
    updatedAt: int)

  /** The user ids of a room's participants, in order. */
  function ParticipantIds(ps: seq<Participant>): (r: seq<Id>)
    ensures |r| == |ps|
    ensures forall i :: 0 <= i < |r| ==> r[i] == ps[i].userId
  {
    MapSeq(ps, (p: Participant) => p.userId)
  }

  predicate IsParticipant(room: RoomDoc, user: Id)
  {
    user in ParticipantIds(room.participants)
  }

  /**
   * `new Room({...})`: the given fields, an empty unread map, not archived,
   * no last message, created and updated now.
   */
  function NewRoom(id: Id, name: string, kind: Option<RoomType>, tenantId: Option<Id>,
                   participants: seq<Participant>, now: int): (r: RoomDoc)
    ensures r.kind == RoomTypeOrDefault(kind) && r.name == name && r.tenantId == tenantId
    ensures r.participants == participants
    ensures r.unreadCount == map[] && !r.isArchived && r.lastMessage.None?
    ensures r.createdAt == now && r.updatedAt == now
  {
    RoomDoc(id, name, RoomTypeOrDefault(kind), tenantId, participants, None, Some(now), map[],
            false, now, now)
  }

  /** Every participant's role lies in `roles`. */
  predicate RolesIn(ps: seq<Participant>, roles: seq<string>)
  {
    forall i :: 0 <= i < |ps| ==> ps[i].role in roles
  }

  /**
   * What a save accepts, for a given role enum: a non-empty name, a tenant
   * whenever the type needs one, and only enumerated participant roles.
   */
  predicate SchemaValidWith(room: RoomDoc, roles: seq<string>)
  {
    room.name != "" &&
    (TenantRequired(room.kind) ==> room.tenantId.Some?) &&
    RolesIn(room.participants, roles)
  }

  predicate SchemaValidAsWritten(room: RoomDoc)
  {
    SchemaValidWith(room, SCHEMA_ROLES_AS_WRITTEN)
  }

  predicate SchemaValid(room: RoomDoc)
  {
    SchemaValidWith(room, ROOM_ROLES)
  }

  /** The corrected enum only widens what a save accepts. */
  lemma AsWrittenImpliesValid(room: RoomDoc)
    requires SchemaValidAsWritten(room)
    ensures SchemaValid(room)
  {
    forall i | 0 <= i < |room.participants|
      ensures room.participants[i].role in ROOM_ROLES
    {
      assert room.participants[i].role in SCHEMA_ROLES_AS_WRITTEN;
    }
  }

  /** A role the schema enum as written refuses, which the controllers use. */
  lemma InitiatorRefusedAsWritten(room: RoomDoc, i: nat)
    requires i < |room.participants| && room.participants[i].role == "INITIATOR"
    ensures !SchemaValidAsWritten(room)
    ensures "INITIATOR" in ROOM_ROLES && "PARTICIPANT" in ROOM_ROLES
    ensures "PARTICIPANT" !in SCHEMA_ROLES_AS_WRITTEN
  {
    assert "INITIATOR" != "OWNER" && "INITIATOR" != "ADMIN" && "INITIATOR" != "MEMBER";
    assert "PARTICIPANT" != "OWNER" && "PARTICIPANT" != "ADMIN" && "PARTICIPANT" != "MEMBER";
  }

  /** The other role the controllers use, which the enum as written refuses too. */
  lemma ParticipantRefusedAsWritten(room: RoomDoc, i: nat)
    requires i < |room.participants| && room.participants[i].role == "PARTICIPANT"
    ensures !SchemaValidAsWritten(room)
  {
    assert "PARTICIPANT" != "OWNER" && "PARTICIPANT" != "ADMIN" && "PARTICIPANT" != "MEMBER";
  }

  /** Direct and admin rooms may omit the tenant; the others may not. */
  lemma TenantlessRooms(room: RoomDoc)
    requires SchemaValid(room) && room.tenantId.None?
    ensures room.kind == Direct || room.kind == AdminChat
  {
  }

  /** `unreadCount.get(user) || 0`: an absent entry reads as zero. */
  function UnreadOf(counts: map<Id, int>, user: Id): (n: int)
    ensures user !in counts ==> n == 0
    ensures user in counts ==> n == counts[user]
  {
    if user in counts then counts[user] else 0
  }

  /** Deleting the user's entry, as `markRoomAsRead` and `join_room` do. */
  function UnreadCleared(room: RoomDoc, user: Id): (r: RoomDoc)
    ensures r.unreadCount == room.unreadCount - {user}
    ensures UnreadOf(r.unreadCount, user) == 0
    ensures forall v :: v != user ==> UnreadOf(r.unreadCount, v) == UnreadOf(room.unreadCount, v)
    ensures r.(unreadCount := room.unreadCount) == room
  {
    if user in room.unreadCount then room.(unreadCount := room.unreadCount - {user}) else room
  }
}
