/**
 * The state the chat socket server works on, and what each socket event does
 * to it, as pure transitions.
 *
 * The process-wide registries are JavaScript `Map`s from a room id to a `Set`
 * of user ids; `Registry` keeps the map together with its keys in insertion
 * order, which is the order `for ... of map.entries()` visits them. Rooms and
 * messages are in-memory collections keyed by id (`order` is the natural
 * order a query without `sort` returns messages in), `users` are the ids that
 * a `populate` can still resolve, and everything the server emits is
 * appended to `log`. Time is a parameter in milliseconds.
 */
module SocketState {
  import opened Common
  import opened MessageModel
  import opened RoomModel
  import opened SocketGuards

  const MAX_CONTENT_LENGTH := 5000
  const MAX_EMOJI_LENGTH := 2

  const INVALID_ROOM_ID := "Invalid room ID format"
  const JOIN_FAILED := "Failed to join room"
  const SEND_RATE_LIMITED := "Too many messages, please slow down"
  const SEND_FAILED := "Failed to send message"
  const CONTENT_REQUIRED := "Room ID and content required"
  const EMPTY_MESSAGE := "Message cannot be empty"
  const MESSAGE_TOO_LONG := "Message is too long (max 5000 characters)"
  const REACTION_RATE_LIMITED := "Reaction rate limit exceeded"
  const INVALID_REACTION := "Invalid reaction data"
  const EMOJI_TOO_LONG := "Emoji must be single character"
  const EDIT_RATE_LIMITED := "Edit rate limit exceeded"
  const EDIT_REQUIRED := "Message ID and content required"
  const EDIT_EMPTY := "Edited message cannot be empty"
  const EDIT_TOO_LONG := "Message is too long"
  const DELETE_RATE_LIMITED := "Delete rate limit exceeded"
  const DELETE_REQUIRED := "Message ID required"
  const TOKEN_REQUIRED := "Authentication token required"
  const TOKEN_INVALID := "Invalid authentication token"

  /** What the server emits, to a socket, a user's private room, a chat room or everyone. */
  datatype Event =
    | SocketError(socketId: string, message: string)
    | AuthError(socketId: string, message: string)
    | OnlineUsers(users: set<Id>)
    | RoomUsersOnline(roomId: Id, users: set<Id>)
    | UserJoined(roomId: Id, userId: Id)
    | UserLeft(roomId: Id, userId: Id)
    | UserTyping(roomId: Id, userId: Id, isTyping: bool)
    | MessagesRead(to: Id, roomId: Id, messageIds: seq<Id>, readBy: seq<Id>)
    | MessageReceived(roomId: Id, messageId: Id)
    | UnreadCountUpdated(to: Id, roomId: Id, unreadCount: int)
    | NewAdminMessage(to: Id, roomId: Id, messageId: Id)
    | RoomUpdated(roomId: Id, messageId: Id)
    | ReactionAdded(roomId: Id, messageId: Id, emoji: string, userId: Id, reactionCount: nat)
    | ReactionRemoved(roomId: Id, messageId: Id, emoji: string, userId: Id)
    | MessageEdited(roomId: Id, messageId: Id, content: string)
    | MessageDeleted(roomId: Id, messageId: Id)

  /** A `Map<roomId, Set<userId>>` with its keys in insertion order. */
  datatype Registry = Registry(sets: map<Id, set<Id>>, keys: seq<Id>)
  {
    ghost predicate Valid()
    {
      Distinct(keys) && forall k :: k in keys <==> k in sets
    }

    /** `m.get(key) || new Set()`. */
    function Members(key: Id): set<Id>
    {
      if key in sets then sets[key] else {}
    }

    /** `if (!m.has(key)) m.set(key, new Set()); m.get(key).add(u)`. */
    function Add(key: Id, u: Id): (r: Registry)
      ensures Valid() ==> r.Valid()
      ensures r.Members(key) == Members(key) + {u}
      ensures forall k :: k != key ==> r.Members(k) == Members(k)
    {
      if key in sets then Registry(sets[key := sets[key] + {u}], keys)
      else
        var r := Registry(sets[key := {u}], keys + [key]);
        assert Valid() ==> key !in keys;
        r
    }

    /** `const s = m.get(key); if (s) s.delete(u)`. */
    function Remove(key: Id, u: Id): (r: Registry)
      ensures Valid() ==> r.Valid()
      ensures r.Members(key) == Members(key) - {u}
      ensures forall k :: k != key ==> r.Members(k) == Members(k)
      ensures r.keys == keys
    {
      if key in sets then Registry(sets[key := sets[key] - {u}], keys) else this
    }

    /** `u` deleted from every set; every key stays. */
    function Strip(u: Id): (r: Registry)
      ensures Valid() ==> r.Valid()
      ensures forall k :: r.Members(k) == Members(k) - {u}
      ensures r.keys == keys
    {
      Registry(map k | k in sets :: sets[k] - {u}, keys)
    }
  }

  datatype State = State(
    userSockets: map<Id, string>,
    active: Registry,
    typing: Registry,
    rooms: map<Id, RoomDoc>,
    messages: map<Id, MessageRecord>,
    order: seq<Id>,
    users: set<Id>,
    log: seq<Event>)

  ghost predicate WellFormed(st: State)
  {
    st.active.Valid() && st.typing.Valid() && Distinct(st.order) &&
    forall k :: k in st.order <==> k in st.messages
  }

  /** Who is on the other end of a connection: from the token, fixed at connect time. */
  datatype Session = Session(userId: Id, role: Option<string>, socketId: string)

  function Emit(st: State, e: Event): (r: State)
    ensures r.log == st.log + [e]
    ensures r.(log := st.log) == st
  {
    st.(log := st.log + [e])
  }

  // ---------------------------------------------------------------------
  // Participant views for the access check
  // ---------------------------------------------------------------------

  /** A room as `Room.findById` returns it: participants are bare ids. */
  function RawRoom(st: State, roomId: Id): (r: Option<seq<ParticipantRef>>)
    ensures r.Some? <==> roomId in st.rooms
  {
    if roomId !in st.rooms then None
    else
      var ps := st.rooms[roomId].participants;
      Some(seq(|ps|, i requires 0 <= i < |ps| => Some(ps[i].userId)))
  }

  /** Participants after `populate`: a user that no longer exists becomes an empty reference. */
  function Populated(ps: seq<Participant>, users: set<Id>): (r: seq<ParticipantRef>)
    ensures |r| == |ps|
    ensures forall i :: 0 <= i < |ps| ==> r[i] == if ps[i].userId in users then Some(ps[i].userId) else None
  {
    seq(|ps|, i requires 0 <= i < |ps| => if ps[i].userId in users then Some(ps[i].userId) else None)
  }

  function PopulatedRoom(st: State, roomId: Id): (r: Option<seq<ParticipantRef>>)
    ensures r.Some? <==> roomId in st.rooms
  {
    if roomId !in st.rooms then None else Some(Populated(st.rooms[roomId].participants, st.users))
  }

  // ---------------------------------------------------------------------
  // Read receipts
  // ---------------------------------------------------------------------

  /** `$push: { readBy: { userId, readAt } }`: the status is left alone. */
  function WithReceipt(m: MessageRecord, u: Id, now: int): (r: MessageRecord)
    ensures r.readBy == m.readBy + [Receipt(u, now)]
    ensures r.(readBy := m.readBy) == m
    ensures HasRead(r, u)
  {
    var r := m.(readBy := m.readBy + [Receipt(u, now)]);
    assert Readers(r.readBy)[|m.readBy|] == u;
    r
  }

  /** `updateMany({ _id: { $in: ids } }, { $push: ... })`. */
  function ReceiptsPushed(msgs: map<Id, MessageRecord>, ids: seq<Id>, u: Id, now: int): (r: map<Id, MessageRecord>)
    ensures r.Keys == msgs.Keys
    ensures forall k :: k in msgs && k in ids ==> r[k] == WithReceipt(msgs[k], u, now)
    ensures forall k :: k in msgs && k !in ids ==> r[k] == msgs[k]
  {
    map k | k in msgs :: if k in ids then WithReceipt(msgs[k], u, now) else msgs[k]
  }

  /** The unread-message query of `join_room`: in the room, from someone else, no receipt of `u`. */
  predicate UnreadBy(m: MessageRecord, roomId: Id, u: Id)
  {
    m.roomId == roomId && m.senderId != u && !HasRead(m, u)
  }

  function UnreadAt(msgs: map<Id, MessageRecord>, roomId: Id, u: Id): Id -> bool
  {
    k => k in msgs && UnreadBy(msgs[k], roomId, u)
  }

  function UnreadIds(msgs: map<Id, MessageRecord>, order: seq<Id>, roomId: Id, u: Id): (r: seq<Id>)
    ensures forall i :: 0 <= i < |r| ==> r[i] in msgs && UnreadBy(msgs[r[i]], roomId, u) && r[i] in order
    ensures forall k :: k in order && k in msgs && UnreadBy(msgs[k], roomId, u) ==> k in r
  {
    Filter(order, UnreadAt(msgs, roomId, u))
  }

  // ---------------------------------------------------------------------
  // Grouping read messages by sender
  // ---------------------------------------------------------------------

  /** One entry of the `senderMessages` object: a sender and the ids of their messages. */
  datatype SenderGroup = SenderGroup(sender: Id, ids: seq<Id>)

  function GroupOf(gs: seq<SenderGroup>, s: Id): (r: Option<nat>)
    ensures r.Some? ==> r.value < |gs| && gs[r.value].sender == s
    ensures r.None? ==> forall i :: 0 <= i < |gs| ==> gs[i].sender != s
  {
    if gs == [] then None
    else if gs[|gs| - 1].sender == s then Some(|gs| - 1)
    else GroupOf(gs[..|gs| - 1], s)
  }

  /** One step of the `forEach`: append the id to its sender's group, opening it if new. */
  function Grouped(gs: seq<SenderGroup>, s: Id, id: Id): seq<SenderGroup>
  {
    match GroupOf(gs, s)
    case None => gs + [SenderGroup(s, [id])]
    case Some(i) => gs[i := gs[i].(ids := gs[i].ids + [id])]
  }

  function SenderGroups(ids: seq<Id>, senderOf: map<Id, Id>): seq<SenderGroup>
    requires Known(ids, senderOf)
  {
    if ids == [] then []
    else Grouped(SenderGroups(ids[..|ids| - 1], senderOf), senderOf[ids[|ids| - 1]], ids[|ids| - 1])
  }

  function SentBy(senderOf: map<Id, Id>, s: Id): Id -> bool
  {
    id => id in senderOf && senderOf[id] == s
  }

  /** The ids sent by `s`, in order. */
  function SentIds(ids: seq<Id>, senderOf: map<Id, Id>, s: Id): seq<Id>
  {
    if ids == [] then []
    else
      var x := ids[|ids| - 1];
      SentIds(ids[..|ids| - 1], senderOf, s) + (if x in senderOf && senderOf[x] == s then [x] else [])
  }

  lemma {:induction false} SentIdsIsFilter(ids: seq<Id>, senderOf: map<Id, Id>, s: Id)
    ensures SentIds(ids, senderOf, s) == Filter(ids, SentBy(senderOf, s))
  {
    if ids != [] {
      SentIdsIsFilter(ids[..|ids| - 1], senderOf, s);
    }
  }

  predicate DistinctSenders(gs: seq<SenderGroup>)
  {
    forall i, j :: 0 <= i < j < |gs| ==> gs[i].sender != gs[j].sender
  }

  lemma {:induction false} NoSentIds(ids: seq<Id>, senderOf: map<Id, Id>, s: Id)
    requires Known(ids, senderOf)
    requires forall i :: 0 <= i < |ids| ==> senderOf[ids[i]] != s
    ensures SentIds(ids, senderOf, s) == []
  {
    if ids != [] {
      NoSentIds(ids[..|ids| - 1], senderOf, s);
    }
  }

  predicate Known(ids: seq<Id>, senderOf: map<Id, Id>)
  {
    forall i :: 0 <= i < |ids| ==> ids[i] in senderOf
  }

  /**
   * `gs` partitions `ids` by sender: one group per distinct sender, each
   * holding exactly that sender's ids in their original order.
   */
  predicate GroupsOf(gs: seq<SenderGroup>, ids: seq<Id>, senderOf: map<Id, Id>)
    requires Known(ids, senderOf)
  {
    DistinctSenders(gs) &&
    (forall i :: 0 <= i < |gs| ==> gs[i].ids == SentIds(ids, senderOf, gs[i].sender)) &&
    (forall k :: 0 <= k < |ids| ==> GroupOf(gs, senderOf[ids[k]]).Some?)
  }

  /** Appending `x` to the ids extends exactly the group of `x`'s sender. */
  lemma GroupIdsStep(g: SenderGroup, init: seq<Id>, x: Id, senderOf: map<Id, Id>)
    requires x in senderOf && g.ids == SentIds(init, senderOf, g.sender)
    ensures g.sender == senderOf[x] ==> g.ids + [x] == SentIds(init + [x], senderOf, g.sender)
    ensures g.sender != senderOf[x] ==> g.ids == SentIds(init + [x], senderOf, g.sender)
  {
    assert (init + [x])[..|init|] == init;
  }

  /** A new sender opens a group at the end. */
  lemma GroupedNew(gs: seq<SenderGroup>, init: seq<Id>, x: Id, senderOf: map<Id, Id>)
    requires Known(init, senderOf) && x in senderOf && GroupsOf(gs, init, senderOf)
    requires GroupOf(gs, senderOf[x]).None?
    ensures Known(init + [x], senderOf)
    ensures GroupsOf(gs + [SenderGroup(senderOf[x], [x])], init + [x], senderOf)
  {
    var s := senderOf[x];
    var ids := init + [x];
    var gs' := gs + [SenderGroup(s, [x])];
    assert Known(ids, senderOf);
    NewGroupIds(gs, init, x, senderOf);
    NewGroupFound(gs, init, x, senderOf);
    assert DistinctSenders(gs');
  }

  /** The ids of every group, old and new, after a new sender's first id. */
  lemma NewGroupIds(gs: seq<SenderGroup>, init: seq<Id>, x: Id, senderOf: map<Id, Id>)
    requires Known(init, senderOf) && x in senderOf && GroupsOf(gs, init, senderOf)
    requires GroupOf(gs, senderOf[x]).None?
    ensures var gs' := gs + [SenderGroup(senderOf[x], [x])];
      forall i :: 0 <= i < |gs'| ==> gs'[i].ids == SentIds(init + [x], senderOf, gs'[i].sender)
  {
    var s := senderOf[x];
    var ids := init + [x];
    var gs' := gs + [SenderGroup(s, [x])];
    forall j | 0 <= j < |init|
      ensures senderOf[init[j]] != s
    {
      assert GroupOf(gs, senderOf[init[j]]).Some?;
    }
    NoSentIds(init, senderOf, s);
    assert ids[..|init|] == init;
    forall i | 0 <= i < |gs'|
      ensures gs'[i].ids == SentIds(ids, senderOf, gs'[i].sender)
    {
      if i < |gs| {
        GroupIdsStep(gs[i], init, x, senderOf);
      }
    }
  }

  /** Every id, old and new, has a group after a new sender's first id. */
  lemma NewGroupFound(gs: seq<SenderGroup>, init: seq<Id>, x: Id, senderOf: map<Id, Id>)
    requires Known(init, senderOf) && x in senderOf && GroupsOf(gs, init, senderOf)
    requires GroupOf(gs, senderOf[x]).None?
    ensures var ids := init + [x];
      forall k :: 0 <= k < |ids| ==> GroupOf(gs + [SenderGroup(senderOf[x], [x])], senderOf[ids[k]]).Some?
  {
    var ids := init + [x];
    var gs' := gs + [SenderGroup(senderOf[x], [x])];
    forall k | 0 <= k < |ids|
      ensures GroupOf(gs', senderOf[ids[k]]).Some?
    {
      var t := senderOf[ids[k]];
      if k < |init| {
        var g := GroupOf(gs, t).value;
        assert gs'[g].sender == t;
      } else {
        assert gs'[|gs|].sender == t;
      }
    }
  }

  /** A known sender's group grows by one id; the others stay. */
  lemma GroupedOld(gs: seq<SenderGroup>, init: seq<Id>, x: Id, senderOf: map<Id, Id>)
    requires Known(init, senderOf) && x in senderOf && GroupsOf(gs, init, senderOf)
    requires GroupOf(gs, senderOf[x]).Some?
    ensures Known(init + [x], senderOf)
    ensures var g := GroupOf(gs, senderOf[x]).value;
      GroupsOf(gs[g := gs[g].(ids := gs[g].ids + [x])], init + [x], senderOf)
  {
    var s := senderOf[x];
    var ids := init + [x];
    var g := GroupOf(gs, s).value;
    var gs' := gs[g := gs[g].(ids := gs[g].ids + [x])];
    forall i | 0 <= i < |gs'|
      ensures gs'[i].ids == SentIds(ids, senderOf, gs'[i].sender)
    {
      GroupIdsStep(gs[i], init, x, senderOf);
    }
    forall k | 0 <= k < |ids|
      ensures GroupOf(gs', senderOf[ids[k]]).Some?
    {
      var t := senderOf[ids[k]];
      if k < |init| {
        var h := GroupOf(gs, t).value;
        assert gs'[h].sender == t;
      } else {
        assert gs'[g].sender == t;
      }
    }
  }

  lemma {:induction false} SenderGroupsCorrect(ids: seq<Id>, senderOf: map<Id, Id>)
    requires Known(ids, senderOf)
    ensures GroupsOf(SenderGroups(ids, senderOf), ids, senderOf)
    decreases |ids|
  {
    if ids == [] {
    } else {
      var init := ids[..|ids| - 1];
      var x := ids[|ids| - 1];
      assert ids == init + [x];
      SenderGroupsCorrect(init, senderOf);
      if GroupOf(SenderGroups(init, senderOf), senderOf[x]).None? {
        GroupedNew(SenderGroups(init, senderOf), init, x, senderOf);
      } else {
        GroupedOld(SenderGroups(init, senderOf), init, x, senderOf);
      }
    }
  }

  function SenderMap(msgs: map<Id, MessageRecord>): (r: map<Id, Id>)
    ensures r.Keys == msgs.Keys
    ensures forall k :: k in msgs ==> r[k] == msgs[k].senderId
  {
    map k | k in msgs :: msgs[k].senderId
  }

  /** `emitToUser(sender, 'messages_read', ...)`, one per group. */
  function ReadNotices(gs: seq<SenderGroup>, roomId: Id, reader: Id): (r: seq<Event>)
    ensures |r| == |gs|
    ensures forall i :: 0 <= i < |gs| ==> r[i] == MessagesRead(gs[i].sender, roomId, gs[i].ids, [reader])
  {
    seq(|gs|, i requires 0 <= i < |gs| => MessagesRead(gs[i].sender, roomId, gs[i].ids, [reader]))
  }

  /** Every unread message's sender can be populated (otherwise the grouping throws). */
  predicate SendersKnown(ids: seq<Id>, msgs: map<Id, MessageRecord>, users: set<Id>)
  {
    forall i :: 0 <= i < |ids| ==> ids[i] in msgs && msgs[ids[i]].senderId in users
  }

  // ---------------------------------------------------------------------
  // join_room / leave_room
  // ---------------------------------------------------------------------

  /** The tail of `join_room`: clear the unread entry, then announce. */
  function JoinFinish(st: State, u: Id, roomId: Id): (r: State)
    requires roomId in st.rooms
    ensures r.userSockets == st.userSockets && r.typing == st.typing && r.order == st.order && r.users == st.users
  {
    var cleared := st.(rooms := st.rooms[roomId := UnreadCleared(st.rooms[roomId], u)]);
    cleared.(log := cleared.log + [RoomUsersOnline(roomId, cleared.active.Members(roomId)), UserJoined(roomId, u)])
  }

  /** `join_room`: an invalid id or a refused access only reports an error to the caller. */
  function JoinRoomSpec(st: State, s: Session, roomId: Id, now: int): (r: State)
    ensures roomId == "" ==> r == Emit(st, SocketError(s.socketId, INVALID_ROOM_ID))
    ensures roomId != "" && VerifyRoomAccess(RawRoom(st, roomId), s.userId, s.role).Denied? ==>
      r == Emit(st, SocketError(s.socketId, VerifyRoomAccess(RawRoom(st, roomId), s.userId, s.role).error))
    ensures r.userSockets == st.userSockets && r.typing == st.typing && r.order == st.order && r.users == st.users
  {
    if roomId == "" then Emit(st, SocketError(s.socketId, INVALID_ROOM_ID))
    else
      match VerifyRoomAccess(RawRoom(st, roomId), s.userId, s.role)
      case Denied(e) => Emit(st, SocketError(s.socketId, e))
      case Granted => JoinGranted(st, s, roomId, now)
  }

  /** `join_room` once access is granted. */
  function JoinGranted(st: State, s: Session, roomId: Id, now: int): (r: State)
    requires roomId in st.rooms
    ensures r.userSockets == st.userSockets && r.typing == st.typing && r.order == st.order && r.users == st.users
  {
    var joined := st.(active := st.active.Add(roomId, s.userId));
    var unread := UnreadIds(st.messages, st.order, roomId, s.userId);
    if unread == [] then JoinFinish(joined, s.userId, roomId)
    else
      var marked := joined.(messages := ReceiptsPushed(st.messages, unread, s.userId, now));
      if !SendersKnown(unread, st.messages, st.users) then Emit(marked, SocketError(s.socketId, JOIN_FAILED))
      else
        var notices := ReadNotices(SenderGroups(unread, SenderMap(st.messages)), roomId, s.userId);
        JoinFinish(marked.(log := marked.log + notices), s.userId, roomId)
  }

  /**
   * A successful join: the user is active in the room, each message of the
   * room that someone else sent and the user had not read gets exactly one
   * receipt, every other message is untouched, afterwards the user has read
   * every message of the room sent by someone else, and the user's unread
   * entry is gone.
   */
  lemma JoinRoomEffects(st: State, s: Session, roomId: Id, now: int)
    requires WellFormed(st) && roomId != ""
    requires VerifyRoomAccess(RawRoom(st, roomId), s.userId, s.role) == Granted
    requires SendersKnown(UnreadIds(st.messages, st.order, roomId, s.userId), st.messages, st.users)
    ensures var r := JoinRoomSpec(st, s, roomId, now);
      WellFormed(r) &&
      s.userId in r.active.Members(roomId) &&
      r.messages.Keys == st.messages.Keys &&
      (forall k :: k in st.messages && UnreadBy(st.messages[k], roomId, s.userId) ==>
         r.messages[k] == WithReceipt(st.messages[k], s.userId, now)) &&
      (forall k :: k in st.messages && !UnreadBy(st.messages[k], roomId, s.userId) ==>
         r.messages[k] == st.messages[k]) &&
      (forall k :: k in r.messages && r.messages[k].roomId == roomId && r.messages[k].senderId != s.userId ==>
         HasRead(r.messages[k], s.userId)) &&
      roomId in r.rooms && s.userId !in r.rooms[roomId].unreadCount
  {
    var unread := UnreadIds(st.messages, st.order, roomId, s.userId);
    JoinRoomShape(st, s, roomId, now);
    var r := JoinRoomSpec(st, s, roomId, now);
    forall k | k in st.messages && UnreadBy(st.messages[k], roomId, s.userId)
      ensures k in unread && r.messages[k] == WithReceipt(st.messages[k], s.userId, now)
    {
      assert k in st.order;
    }
    forall k | k in r.messages && r.messages[k].roomId == roomId && r.messages[k].senderId != s.userId
      ensures HasRead(r.messages[k], s.userId)
    {
      var m := st.messages[k];
      if k !in unread {
        assert r.messages[k] == m;
      }
    }
    assert WellFormed(r);
  }

  /** A join that gets through: which parts of the state it rewrites, and how. */
  lemma JoinRoomShape(st: State, s: Session, roomId: Id, now: int)
    requires roomId != ""
    requires VerifyRoomAccess(RawRoom(st, roomId), s.userId, s.role) == Granted
    requires SendersKnown(UnreadIds(st.messages, st.order, roomId, s.userId), st.messages, st.users)
    ensures roomId in st.rooms
    ensures var r := JoinRoomSpec(st, s, roomId, now);
      r.active == st.active.Add(roomId, s.userId) && r.typing == st.typing && r.order == st.order &&
      r.messages == ReceiptsPushed(st.messages, UnreadIds(st.messages, st.order, roomId, s.userId), s.userId, now) &&
      r.rooms == st.rooms[roomId := UnreadCleared(st.rooms[roomId], s.userId)]
  {
    assert JoinRoomSpec(st, s, roomId, now) == JoinGranted(st, s, roomId, now);
    var unread := UnreadIds(st.messages, st.order, roomId, s.userId);
    var joined := st.(active := st.active.Add(roomId, s.userId));
    if unread == [] {
      assert JoinGranted(st, s, roomId, now) == JoinFinish(joined, s.userId, roomId);
      assert ReceiptsPushed(st.messages, unread, s.userId, now) == st.messages;
    } else {
      var marked := joined.(messages := ReceiptsPushed(st.messages, unread, s.userId, now));
      var notices := ReadNotices(SenderGroups(unread, SenderMap(st.messages)), roomId, s.userId);
      assert JoinGranted(st, s, roomId, now) == JoinFinish(marked.(log := marked.log + notices), s.userId, roomId);
    }
  }

  /**
   * The partial failure of `join_room`: when a sender of an unread message
   * no longer exists, the receipts are already written and the user is
   * already active when the grouping throws, but the unread entry stays.
   */
  lemma JoinRoomPartialFailure(st: State, s: Session, roomId: Id, now: int)
    requires roomId != ""
    requires VerifyRoomAccess(RawRoom(st, roomId), s.userId, s.role) == Granted
    requires UnreadIds(st.messages, st.order, roomId, s.userId) != []
    requires !SendersKnown(UnreadIds(st.messages, st.order, roomId, s.userId), st.messages, st.users)
    ensures var r := JoinRoomSpec(st, s, roomId, now);
      s.userId in r.active.Members(roomId) &&
      r.messages == ReceiptsPushed(st.messages, UnreadIds(st.messages, st.order, roomId, s.userId), s.userId, now) &&
      r.rooms == st.rooms &&
      r.log == st.log + [SocketError(s.socketId, JOIN_FAILED)]
  {
  }

  /** `leave_room`: only the presence sets and the log change. */
  function LeaveRoomSpec(st: State, s: Session, roomId: Id): (r: State)
    ensures roomId == "" ==> r == Emit(st, SocketError(s.socketId, INVALID_ROOM_ID))
    ensures r.messages == st.messages && r.rooms == st.rooms && r.order == st.order && r.users == st.users &&
            r.userSockets == st.userSockets
    ensures forall k :: k != roomId ==> r.active.Members(k) == st.active.Members(k) &&
                                        r.typing.Members(k) == st.typing.Members(k)
  {
    if roomId == "" then Emit(st, SocketError(s.socketId, INVALID_ROOM_ID))
    else
      match VerifyRoomAccess(RawRoom(st, roomId), s.userId, s.role)
      case Denied(e) => Emit(st, SocketError(s.socketId, e))
      case Granted =>
        var left := st.(active := st.active.Remove(roomId, s.userId),
                        typing := st.typing.Remove(roomId, s.userId));
        left.(log := left.log + [RoomUsersOnline(roomId, left.active.Members(roomId)), UserLeft(roomId, s.userId)])
  }

  /** `leave_room` takes the user out of that room's active and typing sets only. */
  lemma LeaveRoomEffects(st: State, s: Session, roomId: Id)
    requires WellFormed(st) && roomId != ""
    requires VerifyRoomAccess(RawRoom(st, roomId), s.userId, s.role) == Granted
    ensures var r := LeaveRoomSpec(st, s, roomId);
      WellFormed(r) &&
      s.userId !in r.active.Members(roomId) && s.userId !in r.typing.Members(roomId) &&
      (forall k :: k != roomId ==> r.active.Members(k) == st.active.Members(k) &&
                                   r.typing.Members(k) == st.typing.Members(k)) &&
      (forall v :: v != s.userId ==> (v in r.active.Members(roomId) <==> v in st.active.Members(roomId))) &&
      r.messages == st.messages && r.rooms == st.rooms
  {
  }

  // ---------------------------------------------------------------------
  // send_message
  // ---------------------------------------------------------------------

  /** Number of entries referring to user `v`. */
  function CountRef(ps: seq<ParticipantRef>, v: Id): nat
  {
    if ps == [] then 0
    else CountRef(ps[..|ps| - 1], v) + (if ps[|ps| - 1] == Some(v) then 1 else 0)
  }

  /** The unread-counter `forEach`: every populated participant other than the sender gets one more. */
  function Incremented(counts: map<Id, int>, ps: seq<ParticipantRef>, sender: Id): map<Id, int>
  {
    if ps == [] then counts
    else
      var r := Incremented(counts, ps[..|ps| - 1], sender);
      var p := ps[|ps| - 1];
      if p.Some? && p.value != sender then r[p.value := UnreadOf(r, p.value) + 1] else r
  }

  /**
   * Each user's counter grows by the number of times they appear among the
   * populated participants, except the sender's, which is unchanged; no
   * entry appears for anyone else.
   */
  lemma {:induction false} IncrementedCounts(counts: map<Id, int>, ps: seq<ParticipantRef>, sender: Id, v: Id)
    ensures UnreadOf(Incremented(counts, ps, sender), v) ==
      UnreadOf(counts, v) + (if v == sender then 0 else CountRef(ps, v))
    ensures v in Incremented(counts, ps, sender) <==> (v in counts || (v != sender && CountRef(ps, v) > 0))
    decreases |ps|
  {
    if ps != [] {
      IncrementedCounts(counts, ps[..|ps| - 1], sender, v);
    }
  }

  lemma {:induction false} CountRefOfDistinct(ps: seq<ParticipantRef>, v: Id)
    requires Distinct(ps)
    ensures CountRef(ps, v) == if Some(v) in ps then 1 else 0
    decreases |ps|
  {
    if ps != [] {
      var init := ps[..|ps| - 1];
      assert Distinct(init);
      CountRefOfDistinct(init, v);
      assert ps == init + [ps[|ps| - 1]];
      assert Some(v) in ps <==> Some(v) in init || ps[|ps| - 1] == Some(v);
    }
  }

  /** `unread_count_updated` to every populated participant other than the sender, in order. */
  function UnreadNotices(ps: seq<ParticipantRef>, sender: Id, roomId: Id, counts: map<Id, int>): (r: seq<Event>)
    ensures forall i :: 0 <= i < |r| ==> (r[i].UnreadCountUpdated? && r[i].to != sender &&
      Some(r[i].to) in ps && r[i].unreadCount == UnreadOf(counts, r[i].to))
  {
    if ps == [] then []
    else
      var rest := UnreadNotices(ps[1..], sender, roomId, counts);
      assert forall i :: 0 <= i < |rest| ==> Some(rest[i].to) in ps;
      if ps[0].Some? && ps[0].value != sender then
        [UnreadCountUpdated(ps[0].value, roomId, UnreadOf(counts, ps[0].value))] + rest
      else rest
  }

  /** The first populated participant other than `u`. */
  function FirstOther(ps: seq<ParticipantRef>, u: Id): (r: Option<Id>)
    ensures r.Some? ==> r.value != u && Some(r.value) in ps
    ensures r.None? ==> forall i :: 0 <= i < |ps| ==> ps[i].None? || ps[i].value == u
  {
    if ps == [] then None
    else if ps[0].Some? && ps[0].value != u then ps[0]
    else
      var r := FirstOther(ps[1..], u);
      assert forall i :: 1 <= i < |ps| ==> ps[i] == ps[1..][i - 1];
      r
  }

  function AdminNotice(kind: RoomType, ps: seq<ParticipantRef>, u: Id, roomId: Id, msgId: Id): seq<Event>
  {
    if kind == AdminChat && FirstOther(ps, u).Some? then [NewAdminMessage(FirstOther(ps, u).value, roomId, msgId)]
    else []
  }

  /** The new message document: trimmed content, status "sent". */
  function SentMessage(id: Id, roomId: Id, sender: Id, content: string, now: int): (m: MessageRecord)
    ensures m.id == id && m.roomId == roomId && m.senderId == sender && m.content == Trim(content)
    ensures m.status == Sent && m.readBy == [] && m.reactions == [] && !m.isDeleted && !m.isEdited
  {
    NewMessage(id, roomId, sender, Trim(content), None, now).(status := Sent)
  }

  /** The result of `send_message`, with the users the delayed auto-read will mark. */
  datatype SendOutcome = SendOutcome(st: State, autoReaders: set<Id>)

  predicate SendAccepted(st: State, s: Session, allowed: bool, roomId: Id, content: string)
  {
    allowed && roomId != "" && content != "" && Trim(content) != "" &&
    Utf16Length(Trim(content)) <= MAX_CONTENT_LENGTH &&
    VerifyRoomAccess(PopulatedRoom(st, roomId), s.userId, s.role) == Granted
  }

  /**
   * `send_message`. `allowed` is the rate limiter's answer, asked first;
   * `newId` is the id the database assigns.
   */
  function SendMessageSpec(st: State, s: Session, allowed: bool, roomId: Id, content: string, newId: Id,
                           now: int): (r: SendOutcome)
    ensures !allowed ==> r == SendOutcome(Emit(st, SocketError(s.socketId, SEND_RATE_LIMITED)), {})
    ensures r.st.active == st.active && r.st.users == st.users && r.st.userSockets == st.userSockets
    ensures s.userId !in r.autoReaders && r.autoReaders <= st.active.Members(roomId)
  {
    if !allowed then SendOutcome(Emit(st, SocketError(s.socketId, SEND_RATE_LIMITED)), {})
    else if roomId == "" || content == "" then SendOutcome(Emit(st, SocketError(s.socketId, CONTENT_REQUIRED)), {})
    else if Trim(content) == "" then SendOutcome(Emit(st, SocketError(s.socketId, EMPTY_MESSAGE)), {})
    else if Utf16Length(Trim(content)) > MAX_CONTENT_LENGTH then
      SendOutcome(Emit(st, SocketError(s.socketId, MESSAGE_TOO_LONG)), {})
    else
      match VerifyRoomAccess(PopulatedRoom(st, roomId), s.userId, s.role)
      case Denied(e) => SendOutcome(Emit(st, SocketError(s.socketId, e)), {})
      case Granted => SendDelivered(st, s, roomId, content, newId, now)
  }

  /** The message stored and the room saved with its new last message and unread counts. */
  function SendSaved(st: State, s: Session, roomId: Id, content: string, newId: Id, now: int): (r: State)
    requires roomId in st.rooms
    ensures r.(messages := st.messages, order := st.order, rooms := st.rooms) == st
  {
    var room := st.rooms[roomId];
    var counts := Incremented(room.unreadCount, Populated(room.participants, st.users), s.userId);
    st.(messages := st.messages[newId := SentMessage(newId, roomId, s.userId, content, now)],
        order := st.order + [newId],
        rooms := st.rooms[roomId := room.(lastMessage := Some(newId), lastMessageTime := Some(now),
                                          unreadCount := counts)])
  }

  /**
   * `send_message` once the request passed every check. A sender whose user
   * document is gone (a universal role passes the access check without being
   * a participant) populates to null: the message and the room are saved,
   * then building the broadcast reads `senderId._id` and throws, so only the
   * handler's error is emitted.
   */
  function SendDelivered(st: State, s: Session, roomId: Id, content: string, newId: Id, now: int): (r: SendOutcome)
    requires roomId in st.rooms
    ensures r.st.active == st.active && r.st.users == st.users && r.st.userSockets == st.userSockets
    ensures s.userId !in r.autoReaders && r.autoReaders <= st.active.Members(roomId)
  {
    var saved := SendSaved(st, s, roomId, content, newId, now);
    if s.userId !in st.users then SendOutcome(Emit(saved, SocketError(s.socketId, SEND_FAILED)), {})
    else
      var room := st.rooms[roomId];
      var ps := Populated(room.participants, st.users);
      var counts := saved.rooms[roomId].unreadCount;
      var events := [MessageReceived(roomId, newId), UserTyping(roomId, s.userId, false)] +
                    UnreadNotices(ps, s.userId, roomId, counts) +
                    AdminNotice(room.kind, ps, s.userId, roomId, newId) +
                    [RoomUpdated(roomId, newId)];
      SendOutcome(saved.(typing := st.typing.Remove(roomId, s.userId), log := st.log + events),
                  st.active.Members(roomId) - {s.userId})
  }

  /** A refused send (rate limit, missing or blank content, too long, no access) only reports an error. */
  lemma SendRejectedChangesNothing(st: State, s: Session, allowed: bool, roomId: Id, content: string,
                                   newId: Id, now: int)
    requires !SendAccepted(st, s, allowed, roomId, content)
    ensures var r := SendMessageSpec(st, s, allowed, roomId, content, newId, now);
      r.autoReaders == {} && |r.st.log| == |st.log| + 1 && r.st.log[|st.log|].SocketError? &&
      r.st.(log := st.log) == st
  {
  }

  /**
   * An accepted send stores the trimmed message as "sent", appends it to the
   * collection, makes it the room's last message, adds one unread message
   * for every other participant per appearance (none for the sender), stops
   * the sender's typing indicator and hands the room's other active users to
   * the auto-read.
   */
  lemma SendMessageEffects(st: State, s: Session, allowed: bool, roomId: Id, content: string, newId: Id,
                           now: int, v: Id)
    requires WellFormed(st) && newId !in st.messages
    requires SendAccepted(st, s, allowed, roomId, content) && s.userId in st.users
    ensures var r := SendMessageSpec(st, s, allowed, roomId, content, newId, now);
      var ps := Populated(st.rooms[roomId].participants, st.users);
      WellFormed(r.st) &&
      r.st.messages == st.messages[newId := SentMessage(newId, roomId, s.userId, content, now)] &&
      r.st.messages[newId].content == Trim(content) && r.st.messages[newId].status == Sent &&
      r.st.rooms[roomId].lastMessage == Some(newId) &&
      UnreadOf(r.st.rooms[roomId].unreadCount, v) ==
        UnreadOf(st.rooms[roomId].unreadCount, v) + (if v == s.userId then 0 else CountRef(ps, v)) &&
      s.userId !in r.st.typing.Members(roomId) &&
      r.autoReaders == st.active.Members(roomId) - {s.userId} &&
      r.st.active == st.active
  {
    SendAcceptedDelivers(st, s, allowed, roomId, content, newId, now);
    SendSavedEffects(st, s, roomId, content, newId, now, v);
  }

  /** An accepted send reaches the delivery. */
  lemma SendAcceptedDelivers(st: State, s: Session, allowed: bool, roomId: Id, content: string, newId: Id, now: int)
    requires SendAccepted(st, s, allowed, roomId, content)
    ensures roomId in st.rooms
    ensures SendMessageSpec(st, s, allowed, roomId, content, newId, now) == SendDelivered(st, s, roomId, content, newId, now)
  {
  }

  /** What the two saves of `send_message` leave behind, whatever happens after them. */
  lemma SendSavedEffects(st: State, s: Session, roomId: Id, content: string, newId: Id, now: int, v: Id)
    requires WellFormed(st) && newId !in st.messages && roomId in st.rooms
    ensures var saved := SendSaved(st, s, roomId, content, newId, now);
      var ps := Populated(st.rooms[roomId].participants, st.users);
      WellFormed(saved) &&
      saved.messages == st.messages[newId := SentMessage(newId, roomId, s.userId, content, now)] &&
      saved.rooms[roomId].lastMessage == Some(newId) &&
      UnreadOf(saved.rooms[roomId].unreadCount, v) ==
        UnreadOf(st.rooms[roomId].unreadCount, v) + (if v == s.userId then 0 else CountRef(ps, v)) &&
      saved.typing == st.typing && saved.active == st.active
  {
    var ps := Populated(st.rooms[roomId].participants, st.users);
    IncrementedCounts(st.rooms[roomId].unreadCount, ps, s.userId, v);
    assert Distinct(st.order + [newId]) by {
      assert newId !in st.order;
    }
  }

  /**
   * The partial failure of `send_message`: a sender without a user document
   * still leaves the message stored and the room updated, but nothing is
   * announced, the typing indicator stays and no auto-read follows.
   */
  lemma SendPartialFailure(st: State, s: Session, allowed: bool, roomId: Id, content: string, newId: Id,
                           now: int, v: Id)
    requires WellFormed(st) && newId !in st.messages
    requires SendAccepted(st, s, allowed, roomId, content) && s.userId !in st.users
    ensures var r := SendMessageSpec(st, s, allowed, roomId, content, newId, now);
      var ps := Populated(st.rooms[roomId].participants, st.users);
      WellFormed(r.st) &&
      r.st.messages == st.messages[newId := SentMessage(newId, roomId, s.userId, content, now)] &&
      r.st.rooms[roomId].lastMessage == Some(newId) &&
      UnreadOf(r.st.rooms[roomId].unreadCount, v) ==
        UnreadOf(st.rooms[roomId].unreadCount, v) + (if v == s.userId then 0 else CountRef(ps, v)) &&
      r.st.typing == st.typing && r.st.active == st.active &&
      r.st.log == st.log + [SocketError(s.socketId, SEND_FAILED)] &&
      r.autoReaders == {}
  {
    SendAcceptedDelivers(st, s, allowed, roomId, content, newId, now);
    SendSavedEffects(st, s, roomId, content, newId, now, v);
  }

  /** The delayed auto-read: one receipt per reader (even one already read), then a notice to the sender. */
  function AutoReadSpec(st: State, sender: Id, roomId: Id, msgId: Id, readers: seq<Id>, now: int): (r: State)
    ensures r.(messages := st.messages, log := st.log) == st
    ensures r.log == st.log + [MessagesRead(sender, roomId, [msgId], readers)]
    ensures r.messages.Keys == st.messages.Keys
    ensures forall k :: k in st.messages && k != msgId ==> r.messages[k] == st.messages[k]
    ensures msgId in st.messages ==>
      r.messages[msgId].(readBy := st.messages[msgId].readBy) == st.messages[msgId] &&
      |r.messages[msgId].readBy| == |st.messages[msgId].readBy| + |readers| &&
      forall i :: 0 <= i < |readers| ==>
        r.messages[msgId].readBy[|st.messages[msgId].readBy| + i] == Receipt(readers[i], now)
  {
    var msgs := if msgId in st.messages
                then st.messages[msgId := st.messages[msgId].(readBy := st.messages[msgId].readBy +
                                                                        ReceiptsFor(readers, now))]
                else st.messages;
    st.(messages := msgs, log := st.log + [MessagesRead(sender, roomId, [msgId], readers)])
  }

  function ReceiptsFor(readers: seq<Id>, now: int): (r: seq<Receipt>)
    ensures |r| == |readers|
    ensures forall i :: 0 <= i < |r| ==> r[i] == Receipt(readers[i], now)
  {
    seq(|readers|, i requires 0 <= i < |readers| => Receipt(readers[i], now))
  }

  /**
   * The auto-read does not look for existing receipts: a reader who joined
   * the room in the meantime ends up with two.
   */
  lemma AutoReadCanDuplicate(st: State, sender: Id, roomId: Id, msgId: Id, reader: Id, now: int)
    requires msgId in st.messages && HasRead(st.messages[msgId], reader)
    ensures var m := AutoReadSpec(st, sender, roomId, msgId, [reader], now).messages[msgId];
      !UniqueReaders(m)
  {
    var m0 := st.messages[msgId];
    var m := AutoReadSpec(st, sender, roomId, msgId, [reader], now).messages[msgId];
    var i :| 0 <= i < |Readers(m0.readBy)| && Readers(m0.readBy)[i] == reader;
    assert m.readBy == m0.readBy + [Receipt(reader, now)];
    assert Readers(m.readBy)[i] == reader && Readers(m.readBy)[|m0.readBy|] == reader;
  }

  // ---------------------------------------------------------------------
  // Typing and read markers
  // ---------------------------------------------------------------------

  /** `start_typing`: the room id is checked before the rate limiter is asked. */
  function StartTypingSpec(st: State, s: Session, allowed: bool, roomId: Id): (r: State)
    ensures roomId == "" || !allowed ==> r == st
    ensures r.(typing := st.typing, log := st.log) == st
    ensures r != st ==> s.userId in r.typing.Members(roomId)
    ensures forall k :: k != roomId ==> r.typing.Members(k) == st.typing.Members(k)
  {
    if roomId == "" || !allowed then st
    else if VerifyRoomAccess(RawRoom(st, roomId), s.userId, s.role).Denied? then st
    else Emit(st.(typing := st.typing.Add(roomId, s.userId)), UserTyping(roomId, s.userId, true))
  }

  /** `stop_typing`: not rate limited. */
  function StopTypingSpec(st: State, s: Session, roomId: Id): (r: State)
    ensures roomId == "" ==> r == st
    ensures r.(typing := st.typing, log := st.log) == st
    ensures r != st ==> s.userId !in r.typing.Members(roomId)
    ensures forall k :: k != roomId ==> r.typing.Members(k) == st.typing.Members(k)
  {
    if roomId == "" then st
    else if VerifyRoomAccess(RawRoom(st, roomId), s.userId, s.role).Denied? then st
    else Emit(st.(typing := st.typing.Remove(roomId, s.userId)), UserTyping(roomId, s.userId, false))
  }

  lemma TypingRoundTrip(st: State, s: Session, roomId: Id)
    requires roomId != "" && VerifyRoomAccess(RawRoom(st, roomId), s.userId, s.role) == Granted
    ensures s.userId in StartTypingSpec(st, s, true, roomId).typing.Members(roomId)
    ensures s.userId !in StopTypingSpec(StartTypingSpec(st, s, true, roomId), s, roomId).typing.Members(roomId)
    ensures forall k :: k != roomId ==>
      StopTypingSpec(StartTypingSpec(st, s, true, roomId), s, roomId).typing.Members(k) == st.typing.Members(k)
  {
  }

  /** `mark_room_read`: the rate limiter is asked first. */
  function MarkRoomReadSpec(st: State, s: Session, allowed: bool, roomId: Id): (r: State)
    ensures !allowed || roomId == "" ==> r == st
    ensures r.(rooms := st.rooms) == st && r.rooms.Keys == st.rooms.Keys
    ensures forall k :: k in st.rooms && k != roomId ==> r.rooms[k] == st.rooms[k]
    ensures r != st ==> s.userId !in r.rooms[roomId].unreadCount
  {
    if !allowed || roomId == "" then st
    else if VerifyRoomAccess(RawRoom(st, roomId), s.userId, s.role).Denied? then st
    else st.(rooms := st.rooms[roomId := UnreadCleared(st.rooms[roomId], s.userId)])
  }

  /** The `updateMany` filter of `mark_messages_read`: no condition on the room. */
  function MarkableAt(msgs: map<Id, MessageRecord>, ids: seq<Id>, u: Id): Id -> bool
  {
    k => k in ids && k in msgs && msgs[k].senderId != u && !HasRead(msgs[k], u)
  }

  function InIds(ids: seq<Id>): Id -> bool
  {
    k => k in ids
  }

  function SendersOf(ks: seq<Id>, msgs: map<Id, MessageRecord>): (r: seq<Id>)
    requires forall i :: 0 <= i < |ks| ==> ks[i] in msgs
    ensures |r| == |ks|
    ensures forall i :: 0 <= i < |ks| ==> r[i] == msgs[ks[i]].senderId
  {
    seq(|ks|, i requires 0 <= i < |ks| => msgs[ks[i]].senderId)
  }

  function OtherThan(reader: Id): Id -> bool
  {
    x => x != reader
  }

  /** One notice per sender other than the reader, in order, each carrying the whole id list. */
  function SenderNotices(senders: seq<Id>, reader: Id, roomId: Id, ids: seq<Id>): (r: seq<Event>)
    ensures |r| == |Filter(senders, OtherThan(reader))|
    ensures forall i :: 0 <= i < |r| ==>
      r[i] == MessagesRead(Filter(senders, OtherThan(reader))[i], roomId, ids, [reader])
  {
    var targets := Filter(senders, OtherThan(reader));
    seq(|targets|, i requires 0 <= i < |targets| => MessagesRead(targets[i], roomId, ids, [reader]))
  }

  /** Every sender other than the reader is notified, and nobody else. */
  lemma SenderNoticesReach(senders: seq<Id>, reader: Id, roomId: Id, ids: seq<Id>, x: Id)
    ensures (exists i :: 0 <= i < |SenderNotices(senders, reader, roomId, ids)| &&
                         SenderNotices(senders, reader, roomId, ids)[i].to == x) <==>
            x in senders && x != reader
  {
    var targets := Filter(senders, OtherThan(reader));
    var r := SenderNotices(senders, reader, roomId, ids);
    if x in senders && x != reader {
      var j :| 0 <= j < |targets| && targets[j] == x;
      assert r[j].to == x;
    }
    if exists i :: 0 <= i < |r| && r[i].to == x {
      var i :| 0 <= i < |r| && r[i].to == x;
      assert targets[i] == x;
    }
  }

  function MarkMessagesReadSpec(st: State, s: Session, allowed: bool, roomId: Id, ids: seq<Id>,
                                now: int): (r: State)
    requires WellFormed(st)
    ensures !allowed || roomId == "" || ids == [] ==> r == st
    ensures r.(messages := st.messages, log := st.log) == st
    ensures r.messages.Keys == st.messages.Keys
    ensures forall k :: k in st.messages && k !in ids ==> r.messages[k] == st.messages[k]
  {
    if !allowed || roomId == "" || ids == [] then st
    else if VerifyRoomAccess(RawRoom(st, roomId), s.userId, s.role).Denied? then st
    else
      var modified := Filter(st.order, MarkableAt(st.messages, ids, s.userId));
      if modified == [] then st
      else
        var found := Filter(st.order, InIds(ids));
        var senders := DedupKeepFirst(SendersOf(found, st.messages));
        st.(messages := ReceiptsPushed(st.messages, modified, s.userId, now),
            log := st.log + SenderNotices(senders, s.userId, roomId, ids))
  }

  /**
   * `mark_messages_read` checks access to the named room only: a listed
   * message of another room gets the receipt too.
   */
  lemma MarkMessagesReadIgnoresRoom(st: State, s: Session, roomId: Id, ids: seq<Id>, now: int, k: Id)
    requires WellFormed(st) && roomId != "" && ids != []
    requires VerifyRoomAccess(RawRoom(st, roomId), s.userId, s.role) == Granted
    requires k in ids && k in st.messages && st.messages[k].roomId != roomId
    requires st.messages[k].senderId != s.userId && !HasRead(st.messages[k], s.userId)
    ensures var r := MarkMessagesReadSpec(st, s, true, roomId, ids, now);
      r.messages[k] == WithReceipt(st.messages[k], s.userId, now) && r.messages[k].roomId != roomId
  {
    var modified := Filter(st.order, MarkableAt(st.messages, ids, s.userId));
    assert k in st.order;
    assert k in modified;
  }

  // ---------------------------------------------------------------------
  // Reactions, edit, delete
  // ---------------------------------------------------------------------

  predicate HasEmoji(emoji: string, r: Reaction)
  {
    r.emoji == emoji
  }

  /** `reactions.filter(r => r.emoji === emoji).length`. */
  function EmojiCount(rs: seq<Reaction>, emoji: string): nat
  {
    |Filter(rs, x => HasEmoji(emoji, x))|
  }

  predicate NotThisReaction(emoji: string, u: Id, r: Reaction)
  {
    !(r.userId == u && r.emoji == emoji)
  }

  /** Access to the room a message belongs to. */
  function MessageRoomAccess(st: State, s: Session, messageId: Id): Access
    requires messageId in st.messages
  {
    VerifyRoomAccess(RawRoom(st, st.messages[messageId].roomId), s.userId, s.role)
  }

  function AddReactionSpec(st: State, s: Session, allowed: bool, messageId: Id, emoji: string): (r: State)
    ensures !allowed ==> r == Emit(st, SocketError(s.socketId, REACTION_RATE_LIMITED))
    ensures r.(messages := st.messages, log := st.log) == st
    ensures r.messages.Keys == st.messages.Keys
    ensures forall k :: k in st.messages && k != messageId ==> r.messages[k] == st.messages[k]
    ensures messageId in st.messages && r.messages[messageId] != st.messages[messageId] ==>
      r.messages[messageId] ==
      st.messages[messageId].(reactions := st.messages[messageId].reactions + [Reaction(emoji, s.userId)])
  {
    if !allowed then Emit(st, SocketError(s.socketId, REACTION_RATE_LIMITED))
    else if messageId == "" || emoji == "" then Emit(st, SocketError(s.socketId, INVALID_REACTION))
    else if Utf16Length(emoji) > MAX_EMOJI_LENGTH then Emit(st, SocketError(s.socketId, EMOJI_TOO_LONG))
    else if messageId !in st.messages then Emit(st, SocketError(s.socketId, MESSAGE_NOT_FOUND))
    else
      match MessageRoomAccess(st, s, messageId)
      case Denied(e) => Emit(st, SocketError(s.socketId, e))
      case Granted =>
        var m := st.messages[messageId];
        if Reaction(emoji, s.userId) in m.reactions then st
        else
          var rs := m.reactions + [Reaction(emoji, s.userId)];
          Emit(st.(messages := st.messages[messageId := m.(reactions := rs)]),
               ReactionAdded(m.roomId, messageId, emoji, s.userId, EmojiCount(rs, emoji)))
  }

  /** Adding the same reaction twice is adding it once. */
  lemma AddReactionIdempotent(st: State, s: Session, messageId: Id, emoji: string)
    ensures AddReactionSpec(AddReactionSpec(st, s, true, messageId, emoji), s, true, messageId, emoji).messages ==
            AddReactionSpec(st, s, true, messageId, emoji).messages
  {
    var r1 := AddReactionSpec(st, s, true, messageId, emoji);
    if messageId != "" && emoji != "" && Utf16Length(emoji) <= MAX_EMOJI_LENGTH && messageId in st.messages &&
       MessageRoomAccess(st, s, messageId) == Granted {
      var m := st.messages[messageId];
      assert r1.messages[messageId].reactions == m.reactions ||
             r1.messages[messageId].reactions == m.reactions + [Reaction(emoji, s.userId)];
      assert Reaction(emoji, s.userId) in r1.messages[messageId].reactions;
      assert RawRoom(r1, r1.messages[messageId].roomId) == RawRoom(st, m.roomId);
    }
  }

  /** The reported count is the number of reactions with that emoji after the add. */
  lemma ReactionCountReported(st: State, s: Session, messageId: Id, emoji: string)
    requires messageId in st.messages
    requires |AddReactionSpec(st, s, true, messageId, emoji).log| > |st.log|
    ensures var r := AddReactionSpec(st, s, true, messageId, emoji);
      var e := r.log[|r.log| - 1];
      e.ReactionAdded? ==> e.reactionCount == EmojiCount(r.messages[messageId].reactions, emoji) &&
                           e.reactionCount >= 1
  {
    var r := AddReactionSpec(st, s, true, messageId, emoji);
    var m := st.messages[messageId];
    if messageId != "" && emoji != "" && Utf16Length(emoji) <= MAX_EMOJI_LENGTH &&
       MessageRoomAccess(st, s, messageId) == Granted && Reaction(emoji, s.userId) !in m.reactions {
      var rs := m.reactions + [Reaction(emoji, s.userId)];
      ReactionAddedState(st, s, messageId, emoji);
      assert r.messages[messageId].reactions == rs;
      LastReactionCounted(m.reactions, Reaction(emoji, s.userId));
    }
  }

  /** A new reaction the guards let through is stored and broadcast with its emoji's count. */
  lemma ReactionAddedState(st: State, s: Session, messageId: Id, emoji: string)
    requires messageId in st.messages && messageId != "" && emoji != "" && Utf16Length(emoji) <= MAX_EMOJI_LENGTH
    requires MessageRoomAccess(st, s, messageId) == Granted
    requires Reaction(emoji, s.userId) !in st.messages[messageId].reactions
    ensures var m := st.messages[messageId];
      var rs := m.reactions + [Reaction(emoji, s.userId)];
      AddReactionSpec(st, s, true, messageId, emoji) ==
      Emit(st.(messages := st.messages[messageId := m.(reactions := rs)]),
           ReactionAdded(m.roomId, messageId, emoji, s.userId, EmojiCount(rs, emoji)))
  {
  }

  /** A reaction just appended is among those counted for its emoji. */
  lemma LastReactionCounted(rs: seq<Reaction>, x: Reaction)
    ensures EmojiCount(rs + [x], x.emoji) >= 1
  {
    var all := rs + [x];
    assert all[|all| - 1] == x;
    assert x in Filter(all, y => HasEmoji(x.emoji, y));
  }

  /** `remove_reaction`: neither rate limited nor access checked. */
  function RemoveReactionSpec(st: State, s: Session, messageId: Id, emoji: string): (r: State)
    ensures r.(messages := st.messages, log := st.log) == st
    ensures r.messages.Keys == st.messages.Keys
    ensures forall k :: k in st.messages && k != messageId ==> r.messages[k] == st.messages[k]
    ensures messageId in st.messages ==>
      r.messages[messageId].(reactions := st.messages[messageId].reactions) == st.messages[messageId] &&
      |r.messages[messageId].reactions| <= |st.messages[messageId].reactions|
  {
    if messageId == "" || emoji == "" then Emit(st, SocketError(s.socketId, INVALID_REACTION))
    else if messageId !in st.messages then Emit(st, SocketError(s.socketId, MESSAGE_NOT_FOUND))
    else
      var m := st.messages[messageId];
      var rs := Filter(m.reactions, x => NotThisReaction(emoji, s.userId, x));
      if |rs| < |m.reactions| then
        Emit(st.(messages := st.messages[messageId := m.(reactions := rs)]),
             ReactionRemoved(m.roomId, messageId, emoji, s.userId))
      else st
  }

  /** After removal no such pair is left and every other reaction is kept. */
  lemma RemoveReactionEffects(st: State, s: Session, messageId: Id, emoji: string)
    requires messageId != "" && emoji != "" && messageId in st.messages
    ensures var rs := RemoveReactionSpec(st, s, messageId, emoji).messages[messageId].reactions;
      var old_ := st.messages[messageId].reactions;
      Reaction(emoji, s.userId) !in rs &&
      (forall i :: 0 <= i < |old_| && old_[i] != Reaction(emoji, s.userId) ==> old_[i] in rs) &&
      (forall i :: 0 <= i < |rs| ==> rs[i] in old_)
  {
    var old_ := st.messages[messageId].reactions;
    var rs := Filter(old_, x => NotThisReaction(emoji, s.userId, x));
    if |rs| == |old_| {
      FilterKeptAll(old_, x => NotThisReaction(emoji, s.userId, x));
    }
  }

  /** The ownership check sees the found message's sender, or nothing. */
  function SenderOf(st: State, messageId: Id): Option<Id>
  {
    if messageId in st.messages then Some(st.messages[messageId].senderId) else None
  }

  /** `edit_message`: there is no check that the message is not deleted. */
  function EditMessageSpec(st: State, s: Session, allowed: bool, messageId: Id, content: string, now: int): (r: State)
    ensures !allowed ==> r == Emit(st, SocketError(s.socketId, EDIT_RATE_LIMITED))
    ensures r.(messages := st.messages, log := st.log) == st
    ensures r.messages.Keys == st.messages.Keys
    ensures forall k :: k in st.messages && k != messageId ==> r.messages[k] == st.messages[k]
    ensures r.messages != st.messages ==> st.messages[messageId].senderId == s.userId
  {
    if !allowed then Emit(st, SocketError(s.socketId, EDIT_RATE_LIMITED))
    else if messageId == "" || content == "" then Emit(st, SocketError(s.socketId, EDIT_REQUIRED))
    else if Trim(content) == "" then Emit(st, SocketError(s.socketId, EDIT_EMPTY))
    else if Utf16Length(Trim(content)) > MAX_CONTENT_LENGTH then Emit(st, SocketError(s.socketId, EDIT_TOO_LONG))
    else
      match VerifyMessageOwnership(SenderOf(st, messageId), s.userId)
      case Denied(e) => Emit(st, SocketError(s.socketId, e))
      case Granted =>
        match MessageRoomAccess(st, s, messageId)
        case Denied(e) => Emit(st, SocketError(s.socketId, e))
        case Granted =>
          var m := st.messages[messageId];
          var m' := m.(content := Trim(content), isEdited := true, editedAt := Some(now));
          Emit(st.(messages := st.messages[messageId := m']), MessageEdited(m.roomId, messageId, Trim(content)))
  }

  /** `delete_message`: only `deletedAt` is set; `isDeleted` stays as it was. */
  function DeleteMessageSpec(st: State, s: Session, allowed: bool, messageId: Id, now: int): (r: State)
    ensures !allowed ==> r == Emit(st, SocketError(s.socketId, DELETE_RATE_LIMITED))
    ensures r.(messages := st.messages, log := st.log) == st
    ensures r.messages.Keys == st.messages.Keys
    ensures forall k :: k in st.messages && k != messageId ==> r.messages[k] == st.messages[k]
    ensures r.messages != st.messages ==> st.messages[messageId].senderId == s.userId
  {
    if !allowed then Emit(st, SocketError(s.socketId, DELETE_RATE_LIMITED))
    else if messageId == "" then Emit(st, SocketError(s.socketId, DELETE_REQUIRED))
    else
      match VerifyMessageOwnership(SenderOf(st, messageId), s.userId)
      case Denied(e) => Emit(st, SocketError(s.socketId, e))
      case Granted =>
        match MessageRoomAccess(st, s, messageId)
        case Denied(e) => Emit(st, SocketError(s.socketId, e))
        case Granted =>
          var m := st.messages[messageId];
          Emit(st.(messages := st.messages[messageId := m.(deletedAt := Some(now))]),
               MessageDeleted(m.roomId, messageId))
  }

  /**
   * Only the sender may edit over the socket, whatever their role; an edit
   * changes the content and the edit marks only, and a deleted message can
   * still be edited.
   */
  lemma EditEffects(st: State, s: Session, messageId: Id, content: string, now: int)
    requires messageId in st.messages
    ensures var r := EditMessageSpec(st, s, true, messageId, content, now);
      r.messages == st.messages ||
      (st.messages[messageId].senderId == s.userId &&
       r.messages == st.messages[messageId := st.messages[messageId].(content := Trim(content), isEdited := true,
                                                                      editedAt := Some(now))] &&
       r.messages[messageId].isDeleted == st.messages[messageId].isDeleted)
  {
    var r := EditMessageSpec(st, s, true, messageId, content, now);
    if messageId == "" || content == "" || Trim(content) == "" ||
       Utf16Length(Trim(content)) > MAX_CONTENT_LENGTH ||
       VerifyMessageOwnership(SenderOf(st, messageId), s.userId).Denied? ||
       MessageRoomAccess(st, s, messageId).Denied? {
      assert r.messages == st.messages;
    }
  }

  /**
   * Only the sender may delete over the socket, whatever their role; a delete
   * stamps `deletedAt` and leaves the message flagged as it was.
   */
  lemma DeleteEffects(st: State, s: Session, messageId: Id, now: int)
    requires messageId in st.messages
    ensures var r := DeleteMessageSpec(st, s, true, messageId, now);
      r.messages == st.messages ||
      (st.messages[messageId].senderId == s.userId &&
       r.messages == st.messages[messageId := st.messages[messageId].(deletedAt := Some(now))] &&
       r.messages[messageId].isDeleted == st.messages[messageId].isDeleted)
  {
  }

  // ---------------------------------------------------------------------
  // Connection, clean-up, stale sweep
  // ---------------------------------------------------------------------

  /** What `decodeToken` yields: nothing when it throws or returns null. */
  datatype Claims = Claims(userId: Option<Id>, role: Option<string>)

  datatype ConnectOutcome = ConnectOutcome(st: State, session: Option<Session>)

  /**
   * The connection handler: a foreign origin is dropped silently, a missing
   * or undecodable token (or one without a user id) gets an `auth_error`,
   * and otherwise the user's socket is registered (replacing any previous
   * one) and the online list is broadcast.
   */
  function ConnectSpec(st: State, origin: Option<string>, allowedOrigins: seq<string>, token: string,
                       decoded: Option<Claims>, socketId: string): (r: ConnectOutcome)
    ensures r.session.Some? ==> r.st.userSockets == st.userSockets[r.session.value.userId := socketId]
    ensures r.session.None? ==> r.st.userSockets == st.userSockets
    ensures r.st.(log := st.log, userSockets := st.userSockets) == st
  {
    if origin.Some? && origin.value != "" && origin.value !in allowedOrigins then ConnectOutcome(st, None)
    else if token == "" then ConnectOutcome(Emit(st, AuthError(socketId, TOKEN_REQUIRED)), None)
    else if decoded.None? || decoded.value.userId.None? || decoded.value.userId.value == "" then
      ConnectOutcome(Emit(st, AuthError(socketId, TOKEN_INVALID)), None)
    else
      var u := decoded.value.userId.value;
      var sockets := st.userSockets[u := socketId];
      ConnectOutcome(Emit(st.(userSockets := sockets), OnlineUsers(sockets.Keys)),
                     Some(Session(u, decoded.value.role, socketId)))
  }

  /** The last connection of a user wins the registry entry. */
  lemma LastConnectionWins(st: State, token: string, claims: Claims, s1: string, s2: string)
    requires token != "" && claims.userId.Some? && claims.userId.value != ""
    ensures var r := ConnectSpec(ConnectSpec(st, None, [], token, Some(claims), s1).st, None, [], token,
                                 Some(claims), s2);
      r.st.userSockets[claims.userId.value] == s2
  {
  }

  /** Which registry a clean-up pass walks. */
  datatype SetKind = ActiveSets | TypingSets

  /** What leaving one set announces to its room: who is left, or that the user stopped typing. */
  function LeaveNotice(kind: SetKind, roomId: Id, remaining: set<Id>, u: Id): Event
  {
    match kind
    case ActiveSets => RoomUsersOnline(roomId, remaining)
    case TypingSets => UserTyping(roomId, u, false)
  }

  /** One notice for each key, in order, whose set holds `u`. */
  function StripNotices(kind: SetKind, keys: seq<Id>, sets: map<Id, set<Id>>, u: Id): (r: seq<Event>)
    ensures |r| <= |keys|
  {
    if keys == [] then []
    else
      var k := keys[|keys| - 1];
      StripNotices(kind, keys[..|keys| - 1], sets, u) +
        (if k in sets && u in sets[k] then [LeaveNotice(kind, k, sets[k] - {u}, u)] else [])
  }

  /** Every room whose set held the user is told. */
  lemma {:induction false} StripNoticesReach(kind: SetKind, keys: seq<Id>, sets: map<Id, set<Id>>, u: Id, k: Id)
    requires k in keys && k in sets && u in sets[k]
    ensures LeaveNotice(kind, k, sets[k] - {u}, u) in StripNotices(kind, keys, sets, u)
  {
    if keys[|keys| - 1] != k {
      StripNoticesReach(kind, keys[..|keys| - 1], sets, u, k);
    }
  }

  /** The sets once the first `i` keys of a clean-up pass are done. */
  function StripUpTo(reg: Registry, i: nat, u: Id): map<Id, set<Id>>
    requires i <= |reg.keys|
  {
    map k | k in reg.sets :: if k in reg.keys[..i] then reg.sets[k] - {u} else reg.sets[k]
  }

  /** One step of a clean-up pass touches only the next key's set, which is still intact. */
  lemma StripUpToStep(reg: Registry, i: nat, u: Id)
    requires reg.Valid() && i < |reg.keys|
    ensures var k := reg.keys[i];
      k in StripUpTo(reg, i, u) && StripUpTo(reg, i, u)[k] == reg.sets[k] &&
      StripUpTo(reg, i + 1, u) == StripUpTo(reg, i, u)[k := reg.sets[k] - {u}]
  {
    var k := reg.keys[i];
    assert k !in reg.keys[..i];
    assert reg.keys[..i + 1] == reg.keys[..i] + [k];
  }

  /** The notices of a clean-up pass grow by at most the next key's notice. */
  lemma StripNoticesStep(kind: SetKind, keys: seq<Id>, sets: map<Id, set<Id>>, i: nat, u: Id)
    requires i < |keys| && keys[i] in sets
    ensures StripNotices(kind, keys[..i + 1], sets, u) ==
      StripNotices(kind, keys[..i], sets, u) +
      (if u in sets[keys[i]] then [LeaveNotice(kind, keys[i], sets[keys[i]] - {u}, u)] else [])
  {
    assert keys[..i + 1][..i] == keys[..i];
  }

  /** The next step of a clean-up pass, applied to the sets reached so far. */
  lemma StripUpToNext(reg: Registry, i: nat, u: Id, m: map<Id, set<Id>>)
    requires reg.Valid() && i < |reg.keys| && m == StripUpTo(reg, i, u)
    ensures reg.keys[i] in m && m[reg.keys[i]] == reg.sets[reg.keys[i]]
    ensures var k := reg.keys[i];
      (if u in m[k] then m[k := m[k] - {u}] else m) == StripUpTo(reg, i + 1, u)
  {
    var k := reg.keys[i];
    StripUpToStep(reg, i, u);
    if u !in m[k] {
      assert m[k] - {u} == m[k];
      assert m[k := m[k]] == m;
    }
  }

  lemma StripUpToAll(reg: Registry, u: Id)
    requires reg.Valid()
    ensures StripUpTo(reg, |reg.keys|, u) == reg.Strip(u).sets
  {
    assert reg.keys[..|reg.keys|] == reg.keys;
  }

  /**
   * `cleanupUser`: the user leaves every active and typing set (the sets
   * themselves stay), loses the socket entry, and the online list is
   * broadcast.
   */
  function CleanupSpec(st: State, u: Id): (r: State)
    ensures forall k :: r.active.Members(k) == st.active.Members(k) - {u}
    ensures forall k :: r.typing.Members(k) == st.typing.Members(k) - {u}
    ensures r.userSockets == st.userSockets - {u}
    ensures r.rooms == st.rooms && r.messages == st.messages && r.order == st.order
    ensures WellFormed(st) ==> WellFormed(r)
  {
    var sockets := st.userSockets - {u};
    st.(active := st.active.Strip(u), typing := st.typing.Strip(u), userSockets := sockets,
        log := st.log + StripNotices(ActiveSets, st.active.keys, st.active.sets, u) +
               StripNotices(TypingSets, st.typing.keys, st.typing.sets, u) + [OnlineUsers(sockets.Keys)])
  }

  /**
   * Closing a user's older connection after a newer one registered drops the
   * newer one's registration: `disconnect` does not compare socket ids.
   */
  lemma DisconnectDropsNewerSocket(st: State, token: string, claims: Claims, s1: string, s2: string)
    requires token != "" && claims.userId.Some? && claims.userId.value != ""
    ensures var first := ConnectSpec(st, None, [], token, Some(claims), s1);
      var second := ConnectSpec(first.st, None, [], token, Some(claims), s2);
      first.session.Some? && first.session.value.socketId == s1 &&
      claims.userId.value !in CleanupSpec(second.st, first.session.value.userId).userSockets
  {
  }

  /** Users whose registered socket is no longer connected. */
  function StaleUsers(sockets: map<Id, string>, connected: set<string>): (r: set<Id>)
    ensures forall u :: u in r <==> u in sockets && sockets[u] !in connected
  {
    set u | u in sockets && sockets[u] !in connected
  }

  /**
   * Where a sweep stands: the stale users already handled (`stale0` but no
   * longer `stale`) have lost their socket entry and every set membership;
   * everyone outside `stale0` keeps both; the stores are untouched.
   */
  ghost predicate SweptSoFar(st: State, st0: State, stale0: set<Id>, stale: set<Id>)
  {
    (forall u :: u in st.userSockets <==> u in st0.userSockets && (u !in stale0 || u in stale)) &&
    (forall u :: u in st.userSockets ==> st.userSockets[u] == st0.userSockets[u]) &&
    (forall u, k :: u in stale0 && u !in stale ==> u !in st.active.Members(k) && u !in st.typing.Members(k)) &&
    (forall u, k :: u !in stale0 ==>
       (u in st.active.Members(k) <==> u in st0.active.Members(k)) &&
       (u in st.typing.Members(k) <==> u in st0.typing.Members(k))) &&
    st.rooms == st0.rooms && st.messages == st0.messages && st.order == st0.order
  }

  /** A finished sweep: exactly the stale users are gone, everyone else is as before. */
  lemma SweepDone(st: State, st0: State, connected: set<string>)
    requires SweptSoFar(st, st0, StaleUsers(st0.userSockets, connected), {})
    ensures forall u :: u in st.userSockets <==> u in st0.userSockets && st0.userSockets[u] in connected
    ensures forall u :: u in st.userSockets ==> st.userSockets[u] == st0.userSockets[u]
    ensures forall u, k :: u in StaleUsers(st0.userSockets, connected) ==>
      u !in st.active.Members(k) && u !in st.typing.Members(k)
    ensures forall u, k :: u !in StaleUsers(st0.userSockets, connected) ==>
      (u in st.active.Members(k) <==> u in st0.active.Members(k)) &&
      (u in st.typing.Members(k) <==> u in st0.typing.Members(k))
    ensures st.rooms == st0.rooms && st.messages == st0.messages && st.order == st0.order
  {
  }

  /** Cleaning up one more stale user moves the sweep one step on. */
  lemma SweepStep(st: State, st0: State, stale0: set<Id>, stale: set<Id>, u: Id)
    requires SweptSoFar(st, st0, stale0, stale) && u in stale && stale <= stale0
    ensures SweptSoFar(CleanupSpec(st, u), st0, stale0, stale - {u})
  {
  }
}
