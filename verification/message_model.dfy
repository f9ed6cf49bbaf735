/**
 * The message document: its delivery-status enum and defaults, and the three
 * instance methods that move a message through its life (delivered, read by
 * a user, soft-deleted), plus the `isRead` virtual and the `active` query.
 *
 * `MessageRecord` is the stored value (what the in-memory collections of the
 * socket and controller models hold); class `Message` is the document whose
 * methods update its own fields, and each method is specified by the pure
 * transition on records.
 */
module MessageModel {
  import opened Common

  datatype Status = Sending | Sent | Delivered | Read

  function StatusName(s: Status): string
  {
    match s
    case Sending => "sending"
    case Sent => "sent"
    case Delivered => "delivered"
    case Read => "read"
  }

  /** The schema's enum check: only the four names are accepted. */
  function ParseStatus(name: string): (r: Option<Status>)
    ensures r.Some? ==> StatusName(r.value) == name
    ensures r.None? ==> forall s: Status :: StatusName(s) != name
  {
    if name == "sending" then Some(Sending)
    else if name == "sent" then Some(Sent)
    else if name == "delivered" then Some(Delivered)
    else if name == "read" then Some(Read)
    else None
  }

  lemma StatusNameRoundTrip(s: Status)
    ensures ParseStatus(StatusName(s)) == Some(s)
  {
  }

  /** Position of a status on the sending, sent, delivered, read path. */
  function Rank(s: Status): nat
  {
    match s
    case Sending => 0
    case Sent => 1
    case Delivered => 2
    case Read => 3
  }

  datatype Receipt = Receipt(userId: Id, readAt: int)
  datatype Reaction = Reaction(emoji: string, userId: Id)

  datatype MessageRecord = MessageRecord(
    id: Id,
    roomId: Id,
    senderId: Id,
    content: string,
    status: Status,
    sentAt: int,
    deliveredAt: Option<int>,
    readBy: seq<Receipt>,
    isEdited: bool,
    editedAt: Option<int>,
    isDeleted: bool,
    deletedAt: Option<int>,
    deletedBy: Option<Id>,
    reactions: seq<Reaction>,
    replyTo: Option<Id>)

  /** The user ids of a message's receipts, in receipt order. */
  function Readers(readBy: seq<Receipt>): (r: seq<Id>)
    ensures |r| == |readBy|
    ensures forall i :: 0 <= i < |r| ==> r[i] == readBy[i].userId
  {
    MapSeq(readBy, (x: Receipt) => x.userId)
  }

  /** `readBy.some(r => r.userId === userId)`. */
  predicate HasRead(m: MessageRecord, user: Id)
  {
    user in Readers(m.readBy)
  }

  /** At most one receipt per user. */
  predicate UniqueReaders(m: MessageRecord)
  {
    Distinct(Readers(m.readBy))
  }

  /**
   * A freshly created message with the schema defaults filled in: status
   * "sending", no receipts, reactions or delivery time, neither edited nor
   * deleted.
   */
  function NewMessage(id: Id, roomId: Id, senderId: Id, content: string, replyTo: Option<Id>,
                      now: int): (m: MessageRecord)
    ensures m.status == Sending && !m.isEdited && !m.isDeleted
    ensures m.readBy == [] && m.reactions == [] && m.deliveredAt.None? && m.deletedBy.None?
    ensures !IsRead(m) && UniqueReaders(m)
    ensures m.id == id && m.roomId == roomId && m.senderId == senderId && m.content == content
  {
    MessageRecord(id, roomId, senderId, content, Sending, now, None, [], false, None, false,
                  None, None, [], replyTo)
  }

  /** `markAsDelivered`: only a message still "sending" becomes "delivered". */
  function MarkedDelivered(m: MessageRecord, now: int): (r: MessageRecord)
    ensures m.status == Sending ==> r.status == Delivered && r.deliveredAt == Some(now)
    ensures m.status != Sending ==> r == m
    ensures r.(status := m.status, deliveredAt := m.deliveredAt) == m
    ensures Rank(m.status) <= Rank(r.status)
  {
    if m.status == Sending then m.(status := Delivered, deliveredAt := Some(now)) else m
  }

  /**
   * `markAsReadBy(userId)`: a user without a receipt gets one, stamped `now`,
   * at the end of the list, and the status becomes "read"; a user who already
   * has one changes nothing.
   */
  function MarkedReadBy(m: MessageRecord, user: Id, now: int): (r: MessageRecord)
    ensures HasRead(m, user) ==> r == m
    ensures !HasRead(m, user) ==>
      r.readBy == m.readBy + [Receipt(user, now)] && r.status == Read
    ensures r.(readBy := m.readBy, status := m.status) == m
    ensures HasRead(r, user) && IsRead(r)
    ensures Rank(m.status) <= Rank(r.status)
  {
    if HasRead(m, user) then m
    else
      var r := m.(readBy := m.readBy + [Receipt(user, now)], status := Read);
      assert Readers(r.readBy)[|m.readBy|] == user;
      r
  }

  /** `softDelete(userId)`: the three deletion fields, and nothing else. */
  function SoftDeleted(m: MessageRecord, user: Id, now: int): (r: MessageRecord)
    ensures r.isDeleted && r.deletedAt == Some(now) && r.deletedBy == Some(user)
    ensures r.(isDeleted := m.isDeleted, deletedAt := m.deletedAt, deletedBy := m.deletedBy) == m
    ensures !IsActive(r)
  {
    m.(isDeleted := true, deletedAt := Some(now), deletedBy := Some(user))
  }

  /** The `isRead` virtual. */
  predicate IsRead(m: MessageRecord)
  {
    |m.readBy| > 0
  }

  predicate IsActive(m: MessageRecord)
  {
    !m.isDeleted
  }

  /** The `active()` query helper: `where({ isDeleted: false })`, order kept. */
  function Active(ms: seq<MessageRecord>): (r: seq<MessageRecord>)
    ensures forall i :: 0 <= i < |r| ==> !r[i].isDeleted && r[i] in ms
    ensures forall i :: 0 <= i < |ms| && !ms[i].isDeleted ==> ms[i] in r
  {
    Filter(ms, IsActive)
  }

  /** Reading twice is reading once. */
  lemma MarkedReadByIdempotent(m: MessageRecord, user: Id, t1: int, t2: int)
    ensures MarkedReadBy(MarkedReadBy(m, user, t1), user, t2) == MarkedReadBy(m, user, t1)
  {
  }

  /** Receipts added only through `markAsReadBy` stay one per user. */
  lemma {:induction false} MarkedReadByKeepsUnique(m: MessageRecord, user: Id, now: int)
    requires UniqueReaders(m)
    ensures UniqueReaders(MarkedReadBy(m, user, now))
  {
    if !HasRead(m, user) {
      var r := MarkedReadBy(m, user, now);
      var old_ := Readers(m.readBy);
      var new_ := Readers(r.readBy);
      assert new_ == old_ + [user] by {
        assert |new_| == |old_| + 1;
        forall i | 0 <= i < |new_|
          ensures new_[i] == (old_ + [user])[i]
        {
        }
      }
    }
  }

  /** Any sequence of these transitions only moves the status forward. */
  datatype Step = Deliver(at: int) | ReadByUser(user: Id, at: int) | Delete(user: Id, at: int)

  function Apply(m: MessageRecord, step: Step): MessageRecord
  {
    match step
    case Deliver(t) => MarkedDelivered(m, t)
    case ReadByUser(u, t) => MarkedReadBy(m, u, t)
    case Delete(u, t) => SoftDeleted(m, u, t)
  }

  function ApplyAll(m: MessageRecord, steps: seq<Step>): MessageRecord
    decreases steps
  {
    if steps == [] then m else ApplyAll(Apply(m, steps[0]), steps[1..])
  }

  lemma {:induction false} StatusNeverRegresses(m: MessageRecord, steps: seq<Step>)
    ensures Rank(m.status) <= Rank(ApplyAll(m, steps).status)
    ensures UniqueReaders(m) ==> UniqueReaders(ApplyAll(m, steps))
    ensures IsRead(m) ==> IsRead(ApplyAll(m, steps))
    decreases |steps|
  {
    if steps != [] {
      var m1 := Apply(m, steps[0]);
      if UniqueReaders(m) && steps[0].ReadByUser? {
        MarkedReadByKeepsUnique(m, steps[0].user, steps[0].at);
      }
      StatusNeverRegresses(m1, steps[1..]);
    }
  }

  /**
   * The document: the same fields, updated in place by its methods.
   */
  class Message {
    var id: Id
    var roomId: Id
    var senderId: Id
    var content: string
    var status: Status
    var sentAt: int
    var deliveredAt: Option<int>
    var readBy: seq<Receipt>
    var isEdited: bool
    var editedAt: Option<int>
    var isDeleted: bool
    var deletedAt: Option<int>
    var deletedBy: Option<Id>
    var reactions: seq<Reaction>
    var replyTo: Option<Id>

    function Record(): MessageRecord
      reads this
    {
      MessageRecord(id, roomId, senderId, content, status, sentAt, deliveredAt, readBy, isEdited,
                    editedAt, isDeleted, deletedAt, deletedBy, reactions, replyTo)
    }

    /** `new Message({...})` with the schema defaults. */
    constructor (id: Id, roomId: Id, senderId: Id, content: string, replyTo: Option<Id>, now: int)
      ensures Record() == NewMessage(id, roomId, senderId, content, replyTo, now)
    {
      this.id := id;
      this.roomId := roomId;
      this.senderId := senderId;
      this.content := content;
      this.replyTo := replyTo;
      status := Sending;
      sentAt := now;
      deliveredAt := None;
      readBy := [];
      isEdited := false;
      editedAt := None;
      isDeleted := false;
      deletedAt := None;
      deletedBy := None;
      reactions := [];
    }

    method MarkAsDelivered(now: int)
      modifies this
      ensures Record() == MarkedDelivered(old(Record()), now)
    {
      if status == Sending {
        status := Delivered;
        deliveredAt := Some(now);
      }
    }

    method MarkAsReadBy(user: Id, now: int)
      modifies this
      ensures Record() == MarkedReadBy(old(Record()), user, now)
    {
      var alreadyRead := user in Readers(readBy);
      if !alreadyRead {
        readBy := readBy + [Receipt(user, now)];
        status := Read;
      }
    }

    method SoftDelete(user: Id, now: int)
      modifies this
      ensures Record() == SoftDeleted(old(Record()), user, now)
    {
      isDeleted := true;
      deletedAt := Some(now);
      deletedBy := Some(user);
    }
  }
}
