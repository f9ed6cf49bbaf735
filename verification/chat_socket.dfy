/**
 * The chat socket server as an object: the process-wide registries (which
 * socket each user is on, who is active or typing in which room, one rate
 * limiter per user) and the stores it reads and writes, with one method per
 * socket event. Each method is proved to leave exactly the state the matching
 * transition of `SocketState` describes, and to keep the registries
 * well formed.
 */
module ChatSocket {
  import opened Common
  import opened MessageModel
  import opened RoomModel
  import opened SocketGuards
  import opened RateLimiting
  import opened SocketState

  /** One authenticated connection: its session and the limiter it looked up at connect time. */
  datatype Connection = Connection(session: Session, limiter: RateLimiter)

  /**
   * A sender-keyed object with its keys in insertion order stands for the
   * sequence of groups it lists.
   */
  predicate Represents(keys: seq<Id>, groups: map<Id, seq<Id>>, gs: seq<SenderGroup>)
  {
    Distinct(keys) && |keys| == |gs| &&
    (forall t :: t in groups ==> t in keys) &&
    forall j :: 0 <= j < |keys| ==> keys[j] in groups && gs[j] == SenderGroup(keys[j], groups[keys[j]])
  }

  /** Appending to a sender already in the object is appending to that sender's group. */
  lemma AppendToKnownSender(keys: seq<Id>, groups: map<Id, seq<Id>>, gs: seq<SenderGroup>, s: Id, id: Id)
    requires Represents(keys, groups, gs) && s in groups
    ensures Represents(keys, groups[s := groups[s] + [id]], Grouped(gs, s, id))
  {
    assert s in keys;
    var j0 :| 0 <= j0 < |keys| && keys[j0] == s;
    assert gs[j0].sender == s;
    var g := GroupOf(gs, s).value;
    assert keys[g] == s;
    var gs' := Grouped(gs, s, id);
    var groups' := groups[s := groups[s] + [id]];
    forall j | 0 <= j < |keys|
      ensures gs'[j] == SenderGroup(keys[j], groups'[keys[j]])
    {
      if j != g {
        assert keys[j] != keys[g];
      }
    }
  }

  /** A sender new to the object opens a group at the end. */
  lemma AddNewSender(keys: seq<Id>, groups: map<Id, seq<Id>>, gs: seq<SenderGroup>, s: Id, id: Id)
    requires Represents(keys, groups, gs) && s !in groups
    ensures Represents(keys + [s], groups[s := [id]], Grouped(gs, s, id))
  {
    forall j | 0 <= j < |gs|
      ensures gs[j].sender != s
    {
      assert keys[j] in groups;
    }
    var keys' := keys + [s];
    var groups' := groups[s := [id]];
    var gs' := Grouped(gs, s, id);
    assert gs' == gs + [SenderGroup(s, [id])];
    forall j | 0 <= j < |keys'|
      ensures keys'[j] in groups' && gs'[j] == SenderGroup(keys'[j], groups'[keys'[j]])
    {
      if j < |keys| {
        assert keys'[j] == keys[j] != s;
      }
    }
  }

  /**
   * The `senderMessages` object `join_room` builds: the ids grouped by
   * sender, with the senders in insertion order. `None` when a sender can no
   * longer be populated, where the loop throws.
   */
  method GroupBySender(ids: seq<Id>, msgs: map<Id, MessageRecord>, users: set<Id>)
    returns (r: Option<seq<SenderGroup>>)
    requires forall i :: 0 <= i < |ids| ==> ids[i] in msgs
    ensures r.None? <==> !SendersKnown(ids, msgs, users)
    ensures r.Some? ==> Known(ids, SenderMap(msgs)) && r.value == SenderGroups(ids, SenderMap(msgs))
  {
    var senderOf := SenderMap(msgs);
    var keys: seq<Id> := [];
    var groups: map<Id, seq<Id>> := map[];
    var i := 0;
    while i < |ids|
      invariant 0 <= i <= |ids|
      invariant Known(ids[..i], senderOf) && SendersKnown(ids[..i], msgs, users)
      invariant Represents(keys, groups, SenderGroups(ids[..i], senderOf))
    {
      var m := msgs[ids[i]];
      if m.senderId !in users {
        return None;
      }
      var s := m.senderId;
      ghost var gs := SenderGroups(ids[..i], senderOf);
      assert ids[..i + 1] == ids[..i] + [ids[i]];
      assert SenderGroups(ids[..i + 1], senderOf) == Grouped(gs, s, ids[i]);
      if s in groups {
        AppendToKnownSender(keys, groups, gs, s, ids[i]);
        groups := groups[s := groups[s] + [ids[i]]];
      } else {
        AddNewSender(keys, groups, gs, s, ids[i]);
        keys := keys + [s];
        groups := groups[s := [ids[i]]];
      }
      i := i + 1;
    }
    assert ids[..|ids|] == ids;
    r := Some(seq(|keys|, j requires 0 <= j < |keys| => SenderGroup(keys[j], groups[keys[j]])));
  }

  /** The unread-counter `forEach` of `send_message`, over the populated participants. */
  method IncrementUnread(counts: map<Id, int>, ps: seq<ParticipantRef>, sender: Id) returns (r: map<Id, int>)
    ensures r == Incremented(counts, ps, sender)
  {
    r := counts;
    var i := 0;
    while i < |ps|
      invariant 0 <= i <= |ps|
      invariant r == Incremented(counts, ps[..i], sender)
    {
      assert ps[..i + 1][..i] == ps[..i];
      var p := ps[i];
      if p.Some? && p.value != sender {
        var current := if p.value in r then r[p.value] else 0;
        r := r[p.value := current + 1];
      }
      i := i + 1;
    }
    assert ps[..|ps|] == ps;
  }

  /**
   * One clean-up pass over a registry: in key order, delete the user from
   * every set that holds them and collect a notice for that room.
   */
  method StripUser(reg: Registry, kind: SetKind, u: Id) returns (r: Registry, notices: seq<Event>)
    requires reg.Valid()
    ensures r == reg.Strip(u)
    ensures notices == StripNotices(kind, reg.keys, reg.sets, u)
  {
    r := reg;
    notices := [];
    var i := 0;
    while i < |reg.keys|
      invariant 0 <= i <= |reg.keys|
      invariant r.keys == reg.keys && r.sets == StripUpTo(reg, i, u)
      invariant notices == StripNotices(kind, reg.keys[..i], reg.sets, u)
    {
      var k := reg.keys[i];
      StripUpToNext(reg, i, u, r.sets);
      StripNoticesStep(kind, reg.keys, reg.sets, i, u);
      var held := r.sets[k];
      if u in held {
        r := r.(sets := r.sets[k := held - {u}]);
        notices := notices + [LeaveNotice(kind, k, held - {u}, u)];
      }
      i := i + 1;
    }
    assert reg.keys[..i] == reg.keys;
    StripUpToAll(reg, u);
  }

  /** `join_room` once access is granted, on a snapshot of the server state. */
  method JoinGrantedRun(st: State, s: Session, roomId: Id, now: int) returns (r: State)
    requires WellFormed(st) && roomId in st.rooms
    ensures r == JoinGranted(st, s, roomId, now)
    ensures WellFormed(r) && r.userSockets == st.userSockets
  {
    var unread := UnreadIds(st.messages, st.order, roomId, s.userId);
    r := st.(active := st.active.Add(roomId, s.userId));
    if unread != [] {
      var groups := GroupBySender(unread, st.messages, st.users);
      r := r.(messages := ReceiptsPushed(st.messages, unread, s.userId, now));
      if groups.None? {
        return Emit(r, SocketError(s.socketId, JOIN_FAILED));
      }
      r := r.(log := r.log + ReadNotices(groups.value, roomId, s.userId));
    }
    r := JoinFinish(r, s.userId, roomId);
  }

  /** `send_message` after the rate limiter answered `allowed`: the checks in order, then delivery. */
  method SendRun(st: State, s: Session, allowed: bool, roomId: Id, content: string, newId: Id, now: int)
    returns (out: SendOutcome)
    requires WellFormed(st) && newId !in st.messages
    ensures out == SendMessageSpec(st, s, allowed, roomId, content, newId, now)
    ensures WellFormed(out.st) && out.st.userSockets == st.userSockets
  {
    if !allowed {
      return SendOutcome(Emit(st, SocketError(s.socketId, SEND_RATE_LIMITED)), {});
    }
    if roomId == "" || content == "" {
      return SendOutcome(Emit(st, SocketError(s.socketId, CONTENT_REQUIRED)), {});
    }
    var text := Trim(content);
    if text == "" {
      return SendOutcome(Emit(st, SocketError(s.socketId, EMPTY_MESSAGE)), {});
    }
    if Utf16Length(text) > MAX_CONTENT_LENGTH {
      return SendOutcome(Emit(st, SocketError(s.socketId, MESSAGE_TOO_LONG)), {});
    }
    var access := VerifyRoomAccess(PopulatedRoom(st, roomId), s.userId, s.role);
    if access.Denied? {
      return SendOutcome(Emit(st, SocketError(s.socketId, access.error)), {});
    }
    out := DeliverRun(st, s, roomId, content, newId, now);
  }

  /**
   * The rest of `send_message` in the handler's order: store the message,
   * bump the unread counters, update the room, then (for a sender whose
   * user document still exists; otherwise only the error) announce, stop the
   * typing indicator, notify the other participants.
   */
  method DeliverRun(st: State, s: Session, roomId: Id, content: string, newId: Id, now: int)
    returns (out: SendOutcome)
    requires WellFormed(st) && newId !in st.messages && roomId in st.rooms
    ensures out == SendDelivered(st, s, roomId, content, newId, now)
    ensures WellFormed(out.st) && out.st.userSockets == st.userSockets
  {
    var r := st;
    var room := r.rooms[roomId];
    var ps := Populated(room.participants, r.users);
    assert newId !in r.order;
    r := r.(messages := r.messages[newId := SentMessage(newId, roomId, s.userId, content, now)],
            order := r.order + [newId]);
    var counts := IncrementUnread(room.unreadCount, ps, s.userId);
    r := r.(rooms := r.rooms[roomId := room.(lastMessage := Some(newId), lastMessageTime := Some(now),
                                             unreadCount := counts)]);
    assert Distinct(r.order) by {
      DistinctAppend(st.order, newId);
    }
    if s.userId !in r.users {
      return SendOutcome(Emit(r, SocketError(s.socketId, SEND_FAILED)), {});
    }
    var events := [MessageReceived(roomId, newId)];
    var autoReaders := r.active.Members(roomId) - {s.userId};
    events := events + [UserTyping(roomId, s.userId, false)];
    r := r.(typing := r.typing.Remove(roomId, s.userId));
    assert events == [MessageReceived(roomId, newId), UserTyping(roomId, s.userId, false)];
    events := events + UnreadNotices(ps, s.userId, roomId, counts) + AdminNotice(room.kind, ps, s.userId, roomId, newId) +
              [RoomUpdated(roomId, newId)];
    out := SendOutcome(r.(log := r.log + events), autoReaders);
  }

  /** `mark_messages_read` after the rate limiter answered `allowed`. */
  method MarkMessagesReadRun(st: State, s: Session, allowed: bool, roomId: Id, ids: seq<Id>, now: int)
    returns (r: State)
    requires WellFormed(st)
    ensures r == MarkMessagesReadSpec(st, s, allowed, roomId, ids, now)
    ensures WellFormed(r) && r.userSockets == st.userSockets
  {
    if !allowed || roomId == "" || ids == [] || VerifyRoomAccess(RawRoom(st, roomId), s.userId, s.role).Denied? {
      return st;
    }
    var modified := Filter(st.order, MarkableAt(st.messages, ids, s.userId));
    if modified == [] {
      return st;
    }
    var found := Filter(st.order, InIds(ids));
    var senders := DedupKeepFirst(SendersOf(found, st.messages));
    r := st.(messages := ReceiptsPushed(st.messages, modified, s.userId, now),
             log := st.log + SenderNotices(senders, s.userId, roomId, ids));
  }

  /** `add_reaction` after the rate limiter answered `allowed`. */
  method AddReactionRun(st: State, s: Session, allowed: bool, messageId: Id, emoji: string) returns (r: State)
    requires WellFormed(st)
    ensures r == AddReactionSpec(st, s, allowed, messageId, emoji)
    ensures WellFormed(r) && r.userSockets == st.userSockets
  {
    if !allowed {
      return Emit(st, SocketError(s.socketId, REACTION_RATE_LIMITED));
    }
    if messageId == "" || emoji == "" {
      return Emit(st, SocketError(s.socketId, INVALID_REACTION));
    }
    if Utf16Length(emoji) > MAX_EMOJI_LENGTH {
      return Emit(st, SocketError(s.socketId, EMOJI_TOO_LONG));
    }
    if messageId !in st.messages {
      return Emit(st, SocketError(s.socketId, MESSAGE_NOT_FOUND));
    }
    var access := MessageRoomAccess(st, s, messageId);
    if access.Denied? {
      return Emit(st, SocketError(s.socketId, access.error));
    }
    var m := st.messages[messageId];
    if Reaction(emoji, s.userId) in m.reactions {
      return st;
    }
    var rs := m.reactions + [Reaction(emoji, s.userId)];
    r := st.(messages := st.messages[messageId := m.(reactions := rs)]);
    r := Emit(r, ReactionAdded(m.roomId, messageId, emoji, s.userId, EmojiCount(rs, emoji)));
  }

  /** `edit_message` after the rate limiter answered `allowed`. */
  method EditMessageRun(st: State, s: Session, allowed: bool, messageId: Id, content: string, now: int)
    returns (r: State)
    requires WellFormed(st)
    ensures r == EditMessageSpec(st, s, allowed, messageId, content, now)
    ensures WellFormed(r) && r.userSockets == st.userSockets
  {
    if !allowed {
      return Emit(st, SocketError(s.socketId, EDIT_RATE_LIMITED));
    }
    if messageId == "" || content == "" {
      return Emit(st, SocketError(s.socketId, EDIT_REQUIRED));
    }
    var text := Trim(content);
    if text == "" {
      return Emit(st, SocketError(s.socketId, EDIT_EMPTY));
    }
    if Utf16Length(text) > MAX_CONTENT_LENGTH {
      return Emit(st, SocketError(s.socketId, EDIT_TOO_LONG));
    }
    var owner := VerifyMessageOwnership(SenderOf(st, messageId), s.userId);
    if owner.Denied? {
      return Emit(st, SocketError(s.socketId, owner.error));
    }
    var access := MessageRoomAccess(st, s, messageId);
    if access.Denied? {
      return Emit(st, SocketError(s.socketId, access.error));
    }
    var m := st.messages[messageId];
    r := st.(messages := st.messages[messageId := m.(content := text, isEdited := true, editedAt := Some(now))]);
    r := Emit(r, MessageEdited(m.roomId, messageId, text));
  }

  class ChatServer {
    var userSockets: map<Id, string>
    var activeRoomUsers: Registry
    var typingUsers: Registry
    var userRateLimiters: map<Id, RateLimiter>
    var rooms: map<Id, RoomDoc>
    var messages: map<Id, MessageRecord>
    var order: seq<Id>
    var users: set<Id>
    var log: seq<Event>

    function St(): State
      reads this
    {
      State(userSockets, activeRoomUsers, typingUsers, rooms, messages, order, users, log)
    }

    /** The registries are well formed and every registered user has a limiter. */
    ghost predicate Valid()
      reads this
    {
      WellFormed(St()) && userRateLimiters.Keys == userSockets.Keys
    }

    constructor (rooms: map<Id, RoomDoc>, messages: map<Id, MessageRecord>, order: seq<Id>, users: set<Id>)
      requires Distinct(order) && forall k :: k in order <==> k in messages
      ensures Valid()
      ensures St() == State(map[], Registry(map[], []), Registry(map[], []), rooms, messages, order, users, [])
      ensures userRateLimiters == map[]
    {
      userSockets := map[];
      activeRoomUsers := Registry(map[], []);
      typingUsers := Registry(map[], []);
      userRateLimiters := map[];
      this.rooms := rooms;
      this.messages := messages;
      this.order := order;
      this.users := users;
      log := [];
    }

    /** The connection handler; a new limiter replaces any earlier one of the user. */
    method Connect(origin: Option<string>, allowedOrigins: seq<string>, token: string, decoded: Option<Claims>,
                   socketId: string) returns (conn: Option<Connection>)
      requires Valid()
      modifies this
      ensures Valid()
      ensures St() == ConnectSpec(old(St()), origin, allowedOrigins, token, decoded, socketId).st
      ensures conn.Some? <==> ConnectSpec(old(St()), origin, allowedOrigins, token, decoded, socketId).session.Some?
      ensures conn.Some? ==>
        conn.value.session == ConnectSpec(old(St()), origin, allowedOrigins, token, decoded, socketId).session.value &&
        fresh(conn.value.limiter) && conn.value.limiter.limits == map[] &&
        userRateLimiters == old(userRateLimiters)[conn.value.session.userId := conn.value.limiter]
      ensures conn.None? ==> userRateLimiters == old(userRateLimiters)
    {
      if origin.Some? && origin.value != "" && origin.value !in allowedOrigins {
        return None;
      }
      if token == "" {
        log := log + [AuthError(socketId, TOKEN_REQUIRED)];
        return None;
      }
      if decoded.None? || decoded.value.userId.None? || decoded.value.userId.value == "" {
        log := log + [AuthError(socketId, TOKEN_INVALID)];
        return None;
      }
      var u := decoded.value.userId.value;
      userSockets := userSockets[u := socketId];
      var limiter := new RateLimiter(u);
      userRateLimiters := userRateLimiters[u := limiter];
      log := log + [OnlineUsers(userSockets.Keys)];
      conn := Some(Connection(Session(u, decoded.value.role, socketId), limiter));
    }

    method JoinRoom(conn: Connection, roomId: Id, now: int)
      requires Valid()
      modifies this
      ensures Valid()
      ensures St() == JoinRoomSpec(old(St()), conn.session, roomId, now)
      ensures userRateLimiters == old(userRateLimiters)
    {
      var s := conn.session;
      if roomId == "" {
        log := log + [SocketError(s.socketId, INVALID_ROOM_ID)];
        return;
      }
      var access := VerifyRoomAccess(RawRoom(St(), roomId), s.userId, s.role);
      if access.Denied? {
        log := log + [SocketError(s.socketId, access.error)];
        return;
      }
      JoinGrantedStep(s, roomId, now);
    }

    /** Writes a whole state back to the fields; the limiters are not part of it. */
    method Commit(r: State)
      modifies this
      ensures St() == r
      ensures userRateLimiters == old(userRateLimiters)
    {
      userSockets, activeRoomUsers, typingUsers, rooms := r.userSockets, r.active, r.typing, r.rooms;
      messages, order, users, log := r.messages, r.order, r.users, r.log;
    }

    /** The rest of `join_room` once access is granted. */
    method JoinGrantedStep(s: Session, roomId: Id, now: int)
      requires Valid() && roomId in rooms
      modifies this
      ensures Valid()
      ensures St() == JoinGranted(old(St()), s, roomId, now)
      ensures userRateLimiters == old(userRateLimiters)
    {
      var r := JoinGrantedRun(St(), s, roomId, now);
      Commit(r);
    }

    method LeaveRoom(conn: Connection, roomId: Id)
      requires Valid()
      modifies this
      ensures Valid()
      ensures St() == LeaveRoomSpec(old(St()), conn.session, roomId)
      ensures userRateLimiters == old(userRateLimiters)
    {
      var s := conn.session;
      if roomId == "" {
        log := log + [SocketError(s.socketId, INVALID_ROOM_ID)];
        return;
      }
      var access := VerifyRoomAccess(RawRoom(St(), roomId), s.userId, s.role);
      if access.Denied? {
        log := log + [SocketError(s.socketId, access.error)];
        return;
      }
      activeRoomUsers := activeRoomUsers.Remove(roomId, s.userId);
      typingUsers := typingUsers.Remove(roomId, s.userId);
      log := log + [RoomUsersOnline(roomId, activeRoomUsers.Members(roomId)), UserLeft(roomId, s.userId)];
    }

    /**
     * `send_message`; the result is the set of users the delayed auto-read
     * will mark (`newId` is the id the database assigns to the new message).
     */
    method SendMessage(conn: Connection, roomId: Id, content: string, newId: Id, now: int)
      returns (autoReaders: set<Id>)
      requires Valid() && newId !in messages
      modifies this, conn.limiter
      ensures Valid()
      ensures var out := SendMessageSpec(old(St()), conn.session, Allows(old(conn.limiter.limits), SEND_MESSAGE, now),
                                         roomId, content, newId, now);
        St() == out.st && autoReaders == out.autoReaders
      ensures conn.limiter.limits == AfterCheck(old(conn.limiter.limits), SEND_MESSAGE, now)
      ensures userRateLimiters == old(userRateLimiters)
    {
      ghost var st0 := St();
      var allowed := conn.limiter.Check(SEND_MESSAGE, now);
      assert St() == st0;
      var out := SendRun(St(), conn.session, allowed, roomId, content, newId, now);
      Commit(out.st);
      autoReaders := out.autoReaders;
    }

    /** The delayed auto-read `send_message` schedules when someone else is active in the room. */
    method AutoRead(sender: Id, roomId: Id, msgId: Id, readers: seq<Id>, now: int)
      requires Valid() && readers != []
      modifies this
      ensures Valid()
      ensures St() == AutoReadSpec(old(St()), sender, roomId, msgId, readers, now)
      ensures userRateLimiters == old(userRateLimiters)
    {
      if msgId in messages {
        messages := messages[msgId := messages[msgId].(readBy := messages[msgId].readBy + ReceiptsFor(readers, now))];
      }
      log := log + [MessagesRead(sender, roomId, [msgId], readers)];
    }

    method StartTyping(conn: Connection, roomId: Id, now: int)
      requires Valid()
      modifies this, conn.limiter
      ensures Valid()
      ensures St() == StartTypingSpec(old(St()), conn.session, Allows(old(conn.limiter.limits), START_TYPING, now),
                                      roomId)
      ensures conn.limiter.limits ==
        if roomId == "" then old(conn.limiter.limits) else AfterCheck(old(conn.limiter.limits), START_TYPING, now)
      ensures userRateLimiters == old(userRateLimiters)
    {
      if roomId == "" {
        return;
      }
      var allowed := conn.limiter.Check(START_TYPING, now);
      if !allowed {
        return;
      }
      var s := conn.session;
      if VerifyRoomAccess(RawRoom(St(), roomId), s.userId, s.role).Denied? {
        return;
      }
      typingUsers := typingUsers.Add(roomId, s.userId);
      log := log + [UserTyping(roomId, s.userId, true)];
    }

    method StopTyping(conn: Connection, roomId: Id)
      requires Valid()
      modifies this
      ensures Valid()
      ensures St() == StopTypingSpec(old(St()), conn.session, roomId)
      ensures userRateLimiters == old(userRateLimiters)
    {
      var s := conn.session;
      if roomId == "" || VerifyRoomAccess(RawRoom(St(), roomId), s.userId, s.role).Denied? {
        return;
      }
      typingUsers := typingUsers.Remove(roomId, s.userId);
      log := log + [UserTyping(roomId, s.userId, false)];
    }

    method MarkRoomRead(conn: Connection, roomId: Id, now: int)
      requires Valid()
      modifies this, conn.limiter
      ensures Valid()
      ensures St() == MarkRoomReadSpec(old(St()), conn.session, Allows(old(conn.limiter.limits), MARK_READ, now), roomId)
      ensures conn.limiter.limits == AfterCheck(old(conn.limiter.limits), MARK_READ, now)
      ensures userRateLimiters == old(userRateLimiters)
    {
      var allowed := conn.limiter.Check(MARK_READ, now);
      var s := conn.session;
      if !allowed || roomId == "" || VerifyRoomAccess(RawRoom(St(), roomId), s.userId, s.role).Denied? {
        return;
      }
      rooms := rooms[roomId := UnreadCleared(rooms[roomId], s.userId)];
    }

    method MarkMessagesRead(conn: Connection, roomId: Id, ids: seq<Id>, now: int)
      requires Valid()
      modifies this, conn.limiter
      ensures Valid()
      ensures St() == MarkMessagesReadSpec(old(St()), conn.session, Allows(old(conn.limiter.limits), MARK_READ, now),
                                           roomId, ids, now)
      ensures conn.limiter.limits == AfterCheck(old(conn.limiter.limits), MARK_READ, now)
      ensures userRateLimiters == old(userRateLimiters)
    {
      ghost var st0 := St();
      var allowed := conn.limiter.Check(MARK_READ, now);
      assert St() == st0;
      var r := MarkMessagesReadRun(St(), conn.session, allowed, roomId, ids, now);
      Commit(r);
    }

    method AddReaction(conn: Connection, messageId: Id, emoji: string, now: int)
      requires Valid()
      modifies this, conn.limiter
      ensures Valid()
      ensures St() == AddReactionSpec(old(St()), conn.session, Allows(old(conn.limiter.limits), ADD_REACTION, now),
                                      messageId, emoji)
      ensures conn.limiter.limits == AfterCheck(old(conn.limiter.limits), ADD_REACTION, now)
      ensures userRateLimiters == old(userRateLimiters)
    {
      ghost var st0 := St();
      var allowed := conn.limiter.Check(ADD_REACTION, now);
      assert St() == st0;
      var r := AddReactionRun(St(), conn.session, allowed, messageId, emoji);
      Commit(r);
    }

    method RemoveReaction(conn: Connection, messageId: Id, emoji: string)
      requires Valid()
      modifies this
      ensures Valid()
      ensures St() == RemoveReactionSpec(old(St()), conn.session, messageId, emoji)
      ensures userRateLimiters == old(userRateLimiters)
    {
      var s := conn.session;
      if messageId == "" || emoji == "" {
        log := log + [SocketError(s.socketId, INVALID_REACTION)];
        return;
      }
      if messageId !in messages {
        log := log + [SocketError(s.socketId, MESSAGE_NOT_FOUND)];
        return;
      }
      var m := messages[messageId];
      var rs := Filter(m.reactions, x => NotThisReaction(emoji, s.userId, x));
      if |rs| < |m.reactions| {
        messages := messages[messageId := m.(reactions := rs)];
        log := log + [ReactionRemoved(m.roomId, messageId, emoji, s.userId)];
      }
    }

    method EditMessage(conn: Connection, messageId: Id, content: string, now: int)
      requires Valid()
      modifies this, conn.limiter
      ensures Valid()
      ensures St() == EditMessageSpec(old(St()), conn.session, Allows(old(conn.limiter.limits), EDIT_MESSAGE, now),
                                      messageId, content, now)
      ensures conn.limiter.limits == AfterCheck(old(conn.limiter.limits), EDIT_MESSAGE, now)
      ensures userRateLimiters == old(userRateLimiters)
    {
      ghost var st0 := St();
      var allowed := conn.limiter.Check(EDIT_MESSAGE, now);
      assert St() == st0;
      var r := EditMessageRun(St(), conn.session, allowed, messageId, content, now);
      Commit(r);
    }

    method DeleteMessage(conn: Connection, messageId: Id, now: int)
      requires Valid()
      modifies this, conn.limiter
      ensures Valid()
      ensures St() == DeleteMessageSpec(old(St()), conn.session, Allows(old(conn.limiter.limits), DELETE_MESSAGE, now),
                                        messageId, now)
      ensures conn.limiter.limits == AfterCheck(old(conn.limiter.limits), DELETE_MESSAGE, now)
      ensures userRateLimiters == old(userRateLimiters)
    {
      var allowed := conn.limiter.Check(DELETE_MESSAGE, now);
      var s := conn.session;
      if !allowed {
        log := log + [SocketError(s.socketId, DELETE_RATE_LIMITED)];
        return;
      }
      if messageId == "" {
        log := log + [SocketError(s.socketId, DELETE_REQUIRED)];
        return;
      }
      var owner := VerifyMessageOwnership(SenderOf(St(), messageId), s.userId);
      if owner.Denied? {
        log := log + [SocketError(s.socketId, owner.error)];
        return;
      }
      var access := MessageRoomAccess(St(), s, messageId);
      if access.Denied? {
        log := log + [SocketError(s.socketId, access.error)];
        return;
      }
      var m := messages[messageId];
      messages := messages[messageId := m.(deletedAt := Some(now))];
      log := log + [MessageDeleted(m.roomId, messageId)];
    }

    /** `cleanupUser`: both registry passes, then the user's socket entry and limiter go. */
    method CleanupUser(u: Id)
      requires Valid()
      modifies this
      ensures Valid()
      ensures St() == CleanupSpec(old(St()), u)
      ensures userRateLimiters == old(userRateLimiters) - {u}
    {
      var active, presence := StripUser(activeRoomUsers, ActiveSets, u);
      var typing, stopped := StripUser(typingUsers, TypingSets, u);
      activeRoomUsers := active;
      typingUsers := typing;
      userSockets := userSockets - {u};
      userRateLimiters := userRateLimiters - {u};
      log := log + presence + stopped + [OnlineUsers(userSockets.Keys)];
    }

    /** The `disconnect` handler: it cleans up by user id, whichever socket closed. */
    method Disconnect(conn: Connection)
      requires Valid()
      modifies this
      ensures Valid()
      ensures St() == CleanupSpec(old(St()), conn.session.userId)
      ensures userRateLimiters == old(userRateLimiters) - {conn.session.userId}
    {
      CleanupUser(conn.session.userId);
    }

    /** One step of the sweep: the stale user `u` is cleaned up. */
    method SweepOne(u: Id, ghost st0: State, ghost stale0: set<Id>, ghost stale: set<Id>)
      requires Valid() && SweptSoFar(St(), st0, stale0, stale) && u in stale && stale <= stale0
      modifies this
      ensures Valid() && SweptSoFar(St(), st0, stale0, stale - {u})
    {
      ghost var before := St();
      CleanupUser(u);
      SweepStep(before, st0, stale0, stale, u);
    }

    /**
     * The periodic sweep: every user whose registered socket is no longer
     * connected is cleaned up; everyone else keeps their socket and their
     * place in every room.
     */
    method Sweep(connected: set<string>)
      requires Valid()
      modifies this
      ensures Valid()
      ensures forall u :: u in userSockets <==> u in old(userSockets) && old(userSockets)[u] in connected
      ensures forall u :: u in userSockets ==> userSockets[u] == old(userSockets)[u]
      ensures forall u, k :: u in StaleUsers(old(userSockets), connected) ==>
        u !in activeRoomUsers.Members(k) && u !in typingUsers.Members(k)
      ensures forall u, k :: u !in StaleUsers(old(userSockets), connected) ==>
        (u in activeRoomUsers.Members(k) <==> u in old(activeRoomUsers).Members(k)) &&
        (u in typingUsers.Members(k) <==> u in old(typingUsers).Members(k))
      ensures rooms == old(rooms) && messages == old(messages) && order == old(order)
    {
      var stale := StaleUsers(userSockets, connected);
      ghost var stale0 := stale;
      ghost var st0 := St();
      while stale != {}
        invariant Valid()
        invariant stale <= stale0
        invariant SweptSoFar(St(), st0, stale0, stale)
        decreases stale
      {
        var u :| u in stale;
        SweepOne(u, st0, stale0, stale);
        stale := stale - {u};
      }
      assert st0.userSockets == old(userSockets) && st0.active == old(activeRoomUsers) &&
        st0.typing == old(typingUsers);
      SweepDone(St(), st0, connected);
    }
  }
}
