/**
 * The user document and its list-keeping methods: the contact book, the
 * blocked-user list and the refresh-token list (one entry per logged-in
 * device, cleaned of expired and revoked entries and capped at five), plus
 * the `toJSON` projection that hides the secrets.
 *
 * Each list is specified by pure functions on sequences; class `User` holds
 * the fields and its methods reassign them exactly as those functions say.
 * The pure queries of the document (`getContact`, `isUserBlocked`,
 * `verifyRefreshToken`, `getActiveSessions`) are the functions themselves,
 * applied to the fields.
 */
module UserModel {
  import opened Common

  const MAX_REFRESH_TOKENS: nat := 5

  datatype Contact = Contact(
    userId: Id,
    phone: Option<string>,
    email: Option<string>,
    name: Option<string>,
    addedAt: int,
    isFavorite: bool,
    contactName: Option<string>)

  datatype BlockEntry = BlockEntry(userId: Id, blockedAt: int)

  datatype RefreshToken = RefreshToken(
    token: string,
    expiresAt: int,
    revokedAt: Option<int>,
    ipAddress: Option<string>,
    userAgent: Option<string>,
    createdAt: int)

  datatype FcmToken = FcmToken(token: string, platform: string, createdAt: int)

  // ---------------------------------------------------------------------
  // Contacts
  // ---------------------------------------------------------------------

  /** The first contact at or after `from` whose userId is `u`. */
  function FirstContactFrom(cs: seq<Contact>, u: Id, from: nat): (r: Option<nat>)
    requires from <= |cs|
    ensures r.Some? ==> (from <= r.value < |cs| && cs[r.value].userId == u &&
      forall k :: from <= k < r.value ==> cs[k].userId != u)
    ensures r.None? ==> forall k :: from <= k < |cs| ==> cs[k].userId != u
    decreases |cs| - from
  {
    if from == |cs| then None
    else if cs[from].userId == u then Some(from)
    else FirstContactFrom(cs, u, from + 1)
  }

  function FirstContact(cs: seq<Contact>, u: Id): (r: Option<nat>)
    ensures r.Some? ==> (r.value < |cs| && cs[r.value].userId == u &&
      forall k :: 0 <= k < r.value ==> cs[k].userId != u)
    ensures r.None? ==> forall k :: 0 <= k < |cs| ==> cs[k].userId != u
  {
    FirstContactFrom(cs, u, 0)
  }

  /** `getContact(userId)`: the first entry for that user, if any. */
  function GetContact(cs: seq<Contact>, u: Id): (r: Option<Contact>)
    ensures r.Some? ==> r.value in cs && r.value.userId == u
    ensures r.None? <==> forall k :: 0 <= k < |cs| ==> cs[k].userId != u
  {
    match FirstContact(cs, u)
    case None => None
    case Some(i) => Some(cs[i])
  }

  /** `getContactByPhone(phone)`: the first entry with exactly that phone. */
  function GetContactByPhone(cs: seq<Contact>, phone: string): (r: Option<Contact>)
    ensures r.Some? ==> r.value in cs && r.value.phone == Some(phone)
    ensures r.None? ==> forall k :: 0 <= k < |cs| ==> cs[k].phone != Some(phone)
  {
    if cs == [] then None
    else if cs[0].phone == Some(phone) then Some(cs[0])
    else GetContactByPhone(cs[1..], phone)
  }

  predicate UniqueContacts(cs: seq<Contact>)
  {
    forall i, j :: 0 <= i < j < |cs| ==> cs[i].userId != cs[j].userId
  }

  /** `contactName || name`: an empty or missing custom name falls back to the name. */
  function DisplayNameOr(contactName: Option<string>, name: Option<string>): (r: Option<string>)
    ensures contactName.Some? && contactName.value != "" ==> r == contactName
    ensures contactName.None? || contactName.value == "" ==> r == name
  {
    if contactName.Some? && contactName.value != "" then contactName else name
  }

  /**
   * `addContact`: nothing changes when the user is already a contact;
   * otherwise one entry is appended, not a favourite, added now.
   */
  function ContactAdded(cs: seq<Contact>, u: Id, phone: Option<string>, email: Option<string>,
                        name: Option<string>, contactName: Option<string>, now: int): (r: seq<Contact>)
    ensures GetContact(cs, u).Some? ==> r == cs
    ensures GetContact(cs, u).None? ==>
      r == cs + [Contact(u, phone, email, name, now, false, DisplayNameOr(contactName, name))]
    ensures GetContact(r, u).Some?
    ensures UniqueContacts(cs) ==> UniqueContacts(r)
  {
    if GetContact(cs, u).Some? then cs
    else
      var r := cs + [Contact(u, phone, email, name, now, false, DisplayNameOr(contactName, name))];
      assert r[|cs|].userId == u;
      r
  }

  predicate NotContact(u: Id, c: Contact)
  {
    c.userId != u
  }

  /**
   * `removeContact`: every entry for the user goes, every other entry stays
   * as often as it occurred; `ContactRemovedSnoc` adds that the rest keep
   * their order.
   */
  function ContactRemoved(cs: seq<Contact>, u: Id): (r: seq<Contact>)
    ensures GetContact(r, u).None?
    ensures forall c :: multiset(r)[c] == if c.userId == u then 0 else multiset(cs)[c]
    ensures cs == [] ==> r == []
  {
    FilterCounts(cs, c => NotContact(u, c));
    Filter(cs, c => NotContact(u, c))
  }

  /** Removal works entry by entry from the front: an entry at the end is kept unless it is the user's. */
  lemma ContactRemovedSnoc(cs: seq<Contact>, u: Id, c: Contact)
    ensures ContactRemoved(cs + [c], u) == ContactRemoved(cs, u) + (if c.userId == u then [] else [c])
  {
    FilterSnoc(cs, c, x => NotContact(u, x));
  }

  /** Removing right after adding leaves the book as removing alone would. */
  lemma RemoveUndoesAdd(cs: seq<Contact>, u: Id, phone: Option<string>, email: Option<string>,
                        name: Option<string>, contactName: Option<string>, now: int)
    ensures ContactRemoved(ContactAdded(cs, u, phone, email, name, contactName, now), u) ==
            ContactRemoved(cs, u)
  {
    if GetContact(cs, u).None? {
      var c := Contact(u, phone, email, name, now, false, DisplayNameOr(contactName, name));
      FilterAppend(cs, [c], x => NotContact(u, x));
      assert Filter([c], x => NotContact(u, x)) == [];
    }
  }

  /** `markContactAsFavorite` / `unmarkContactAsFavorite`: the flag of the found contact. */
  function FavoriteSet(cs: seq<Contact>, u: Id, fav: bool): (r: seq<Contact>)
    ensures |r| == |cs|
    ensures GetContact(cs, u).None? ==> r == cs
    ensures GetContact(cs, u).Some? ==> GetContact(r, u) == Some(GetContact(cs, u).value.(isFavorite := fav))
    ensures forall k :: 0 <= k < |cs| ==> r[k] == cs[k] || (r[k] == cs[k].(isFavorite := fav) && cs[k].userId == u)
  {
    match FirstContact(cs, u)
    case None => cs
    case Some(i) =>
      var r := cs[i := cs[i].(isFavorite := fav)];
      assert FirstContact(r, u) == Some(i) by {
        assert r[i].userId == u;
        assert forall k :: 0 <= k < i ==> r[k].userId != u;
      }
      r
  }

  // ---------------------------------------------------------------------
  // Blocked users
  // ---------------------------------------------------------------------

  /** `isUserBlocked(userId)`. */
  predicate IsBlocked(bs: seq<BlockEntry>, u: Id)
  {
    exists k :: 0 <= k < |bs| && bs[k].userId == u
  }

  /** `blockUser`: appends an entry unless one exists. */
  function BlockAdded(bs: seq<BlockEntry>, u: Id, now: int): (r: seq<BlockEntry>)
    ensures IsBlocked(r, u)
    ensures IsBlocked(bs, u) ==> r == bs
    ensures !IsBlocked(bs, u) ==> r == bs + [BlockEntry(u, now)]
    ensures forall v :: IsBlocked(bs, v) ==> IsBlocked(r, v)
  {
    if IsBlocked(bs, u) then bs
    else
      var r := bs + [BlockEntry(u, now)];
      assert r[|bs|].userId == u;
      assert forall k :: 0 <= k < |bs| ==> r[k] == bs[k];
      r
  }

  predicate NotBlockedEntry(u: Id, b: BlockEntry)
  {
    b.userId != u
  }

  /** `unblockUser`: every entry for the user goes, the others stay. */
  function BlockRemoved(bs: seq<BlockEntry>, u: Id): (r: seq<BlockEntry>)
    ensures !IsBlocked(r, u)
    ensures forall v :: v != u && IsBlocked(bs, v) ==> IsBlocked(r, v)
    ensures forall v :: IsBlocked(r, v) ==> IsBlocked(bs, v)
  {
    Filter(bs, b => NotBlockedEntry(u, b))
  }

  lemma BlockIdempotent(bs: seq<BlockEntry>, u: Id, t1: int, t2: int)
    ensures BlockAdded(BlockAdded(bs, u, t1), u, t2) == BlockAdded(bs, u, t1)
  {
  }

  // ---------------------------------------------------------------------
  // Refresh tokens
  // ---------------------------------------------------------------------

  /** `t.expiresAt > new Date() && !t.revokedAt`. */
  predicate Live(now: int, t: RefreshToken)
  {
    t.expiresAt > now && t.revokedAt.None?
  }

  function LiveAt(now: int): RefreshToken -> bool
  {
    t => Live(now, t)
  }

  function LiveTokens(ts: seq<RefreshToken>, now: int): (r: seq<RefreshToken>)
    ensures forall k :: 0 <= k < |r| ==> Live(now, r[k]) && r[k] in ts
    ensures forall k :: 0 <= k < |ts| && Live(now, ts[k]) ==> ts[k] in r
  {
    Filter(ts, LiveAt(now))
  }

  /** The pre-save hook: drop dead tokens, keep the newest five. */
  function CleanedTokens(ts: seq<RefreshToken>, now: int): (r: seq<RefreshToken>)
    ensures |r| <= MAX_REFRESH_TOKENS
    ensures forall k :: 0 <= k < |r| ==> Live(now, r[k]) && r[k] in ts
    ensures var live := LiveTokens(ts, now);
      |r| == (if |live| > MAX_REFRESH_TOKENS then MAX_REFRESH_TOKENS else |live|) &&
      r == live[|live| - |r|..]
  {
    LastN(LiveTokens(ts, now), MAX_REFRESH_TOKENS)
  }

  /**
   * `addRefreshToken`: the live tokens, then the new one (not revoked,
   * created now), cut to the newest five.
   */
  function TokenAdded(ts: seq<RefreshToken>, token: string, expiresAt: int, ip: Option<string>,
                      agent: Option<string>, now: int): (r: seq<RefreshToken>)
    ensures 1 <= |r| <= MAX_REFRESH_TOKENS
    ensures r[|r| - 1] == RefreshToken(token, expiresAt, None, ip, agent, now)
    ensures forall k :: 0 <= k < |r| - 1 ==> Live(now, r[k]) && r[k] in ts
    ensures var live := LiveTokens(ts, now);
      |r| == (if |live| >= MAX_REFRESH_TOKENS then MAX_REFRESH_TOKENS else |live| + 1) &&
      r[..|r| - 1] == live[|live| - (|r| - 1)..]
  {
    var live := LiveTokens(ts, now);
    var t := RefreshToken(token, expiresAt, None, ip, agent, now);
    LastNSnoc(live, t, MAX_REFRESH_TOKENS);
    var r := LastN(live + [t], MAX_REFRESH_TOKENS);
    assert forall k :: 0 <= k < |r| - 1 ==> r[k] == r[..|r| - 1][k] && r[k] in live;
    r
  }

  /** A save right after adding a live token changes nothing more. */
  lemma CleanupAfterAdd(ts: seq<RefreshToken>, token: string, expiresAt: int, ip: Option<string>,
                        agent: Option<string>, now: int)
    requires expiresAt > now
    ensures CleanedTokens(TokenAdded(ts, token, expiresAt, ip, agent, now), now) ==
            TokenAdded(ts, token, expiresAt, ip, agent, now)
  {
    var r := TokenAdded(ts, token, expiresAt, ip, agent, now);
    var p := LiveAt(now);
    assert Live(now, r[|r| - 1]);
    assert forall k :: 0 <= k < |r| ==> p(r[k]) by {
      forall k | 0 <= k < |r|
        ensures p(r[k])
      {
        assert Live(now, r[k]);
      }
    }
    FilterAll(r, p);
    var live := LiveTokens(r, now);
    assert live == r;
    assert LastN(live, MAX_REFRESH_TOKENS) == live;
  }

  /** Cleaning is idempotent. */
  lemma CleanupIdempotent(ts: seq<RefreshToken>, now: int)
    ensures CleanedTokens(CleanedTokens(ts, now), now) == CleanedTokens(ts, now)
  {
    FilterAll(CleanedTokens(ts, now), LiveAt(now));
  }

  /** `verifyRefreshToken(token)`: some live record carries it. */
  function VerifyToken(ts: seq<RefreshToken>, token: string, now: int): (ok: bool)
    ensures ok <==> exists k :: 0 <= k < |ts| && ts[k].token == token && Live(now, ts[k])
  {
    if ts == [] then false
    else if ts[0].token == token && Live(now, ts[0]) then true
    else
      var rest := VerifyToken(ts[1..], token, now);
      assert forall k :: 1 <= k < |ts| ==> ts[k] == ts[1..][k - 1];
      rest
  }

  /** Index of the first record satisfying `p`. */
  function FirstTokenWhere(ts: seq<RefreshToken>, p: RefreshToken -> bool): (r: Option<nat>)
    ensures r.Some? ==> (r.value < |ts| && p(ts[r.value]) &&
      forall k :: 0 <= k < r.value ==> !p(ts[k]))
    ensures r.None? ==> forall k :: 0 <= k < |ts| ==> !p(ts[k])
  {
    if ts == [] then None
    else if p(ts[0]) then Some(0)
    else
      match FirstTokenWhere(ts[1..], p)
      case None => None
      case Some(i) => Some(i + 1)
  }

  /** Stamp `revokedAt` on the first record satisfying `p` (whether or not it was live). */
  function RevokeFirst(ts: seq<RefreshToken>, p: RefreshToken -> bool, now: int): (r: seq<RefreshToken>)
    ensures |r| == |ts|
    ensures FirstTokenWhere(ts, p).None? ==> r == ts
    ensures FirstTokenWhere(ts, p).Some? ==>
      r == ts[FirstTokenWhere(ts, p).value := ts[FirstTokenWhere(ts, p).value].(revokedAt := Some(now))]
  {
    match FirstTokenWhere(ts, p)
    case None => ts
    case Some(i) => ts[i := ts[i].(revokedAt := Some(now))]
  }

  predicate HasToken(token: string, t: RefreshToken)
  {
    t.token == token
  }

  predicate HasAgent(agent: Option<string>, t: RefreshToken)
  {
    t.userAgent == agent
  }

  /** `RevokeFirst` stamps the record at the first index that satisfies `p`, and nothing when none does. */
  lemma RevokeFirstAt(ts: seq<RefreshToken>, p: RefreshToken -> bool, now: int)
    ensures (forall k :: 0 <= k < |ts| ==> !p(ts[k])) ==> RevokeFirst(ts, p, now) == ts
    ensures forall i :: 0 <= i < |ts| && p(ts[i]) && (forall k :: 0 <= k < i ==> !p(ts[k])) ==>
      RevokeFirst(ts, p, now) == ts[i := ts[i].(revokedAt := Some(now))]
  {
  }

  /** `revokeRefreshToken(token)`: the first record with that token, and only it, is stamped. */
  function TokenRevoked(ts: seq<RefreshToken>, token: string, now: int): (r: seq<RefreshToken>)
    ensures |r| == |ts|
    ensures (forall k :: 0 <= k < |ts| ==> ts[k].token != token) ==> r == ts
    ensures forall i :: 0 <= i < |ts| && ts[i].token == token && (forall k :: 0 <= k < i ==> ts[k].token != token) ==>
      r == ts[i := ts[i].(revokedAt := Some(now))]
  {
    RevokeFirstAt(ts, t => HasToken(token, t), now);
    RevokeFirst(ts, t => HasToken(token, t), now)
  }

  /** `revokeSessionByAgent(userAgent)`: the first record from that agent, and only it, is stamped. */
  function AgentRevoked(ts: seq<RefreshToken>, agent: Option<string>, now: int): (r: seq<RefreshToken>)
    ensures |r| == |ts|
    ensures (forall k :: 0 <= k < |ts| ==> ts[k].userAgent != agent) ==> r == ts
    ensures forall i :: 0 <= i < |ts| && ts[i].userAgent == agent &&
                        (forall k :: 0 <= k < i ==> ts[k].userAgent != agent) ==>
      r == ts[i := ts[i].(revokedAt := Some(now))]
  {
    RevokeFirstAt(ts, t => HasAgent(agent, t), now);
    RevokeFirst(ts, t => HasAgent(agent, t), now)
  }

  predicate UniqueTokenValues(ts: seq<RefreshToken>)
  {
    forall i, j :: 0 <= i < j < |ts| ==> ts[i].token != ts[j].token
  }

  /**
   * Once revoked, a token no longer verifies, provided it was stored once
   * (only the first record with the value is stamped).
   */
  lemma RevokedTokenFails(ts: seq<RefreshToken>, token: string, now: int, later: int)
    requires UniqueTokenValues(ts)
    ensures !VerifyToken(TokenRevoked(ts, token, now), token, later)
  {
    var r := TokenRevoked(ts, token, now);
    var i := FirstTokenWhere(ts, t => HasToken(token, t));
    if i.Some? {
      forall k | 0 <= k < |r| && r[k].token == token
        ensures !Live(later, r[k])
      {
        assert k == i.value;
      }
    }
  }

  /** With the same value stored twice, revoking leaves the second copy usable. */
  lemma RevokeLeavesDuplicate(token: string, now: int)
    ensures var ts := [RefreshToken(token, now + 1, None, None, None, now),
                       RefreshToken(token, now + 1, None, None, None, now)];
            VerifyToken(TokenRevoked(ts, token, now), token, now)
  {
    var ts := [RefreshToken(token, now + 1, None, None, None, now),
               RefreshToken(token, now + 1, None, None, None, now)];
    var r := TokenRevoked(ts, token, now);
    assert FirstTokenWhere(ts, t => HasToken(token, t)) == Some(0);
    assert r[1] == ts[1] && Live(now, r[1]);
  }

  /** `revokeAllRefreshTokens`: every record stamped now. */
  function AllRevoked(ts: seq<RefreshToken>, now: int): (r: seq<RefreshToken>)
    ensures |r| == |ts|
    ensures forall k :: 0 <= k < |ts| ==> r[k] == ts[k].(revokedAt := Some(now))
  {
    seq(|ts|, k requires 0 <= k < |ts| => ts[k].(revokedAt := Some(now)))
  }

  lemma AllRevokedFails(ts: seq<RefreshToken>, token: string, now: int, later: int)
    ensures !VerifyToken(AllRevoked(ts, now), token, later)
  {
  }

  datatype Session = Session(ipAddress: Option<string>, userAgent: Option<string>, createdAt: int,
                             expiresAt: int)

  function SessionOf(t: RefreshToken): Session
  {
    Session(t.ipAddress, t.userAgent, t.createdAt, t.expiresAt)
  }

  /** `getActiveSessions()`: one session per live record, in order. */
  function ActiveSessions(ts: seq<RefreshToken>, now: int): (r: seq<Session>)
    ensures |r| == |LiveTokens(ts, now)|
    ensures forall k :: 0 <= k < |r| ==> r[k] == SessionOf(LiveTokens(ts, now)[k])
    ensures forall k :: 0 <= k < |r| ==> r[k].expiresAt > now
  {
    var live := LiveTokens(ts, now);
    seq(|live|, k requires 0 <= k < |live| => SessionOf(live[k]))
  }

  /** Revoking every token ends every session. */
  lemma NoSessionsAfterRevokeAll(ts: seq<RefreshToken>, now: int, later: int)
    ensures ActiveSessions(AllRevoked(ts, now), later) == []
  {
    var r := AllRevoked(ts, now);
    var live := LiveTokens(r, later);
    assert forall t :: t in r ==> !Live(later, t);
    assert |live| == 0;
  }

  // ---------------------------------------------------------------------
  // The document
  // ---------------------------------------------------------------------

  datatype UserRecord = UserRecord(
    id: Id,
    name: string,
    email: string,
    phone: Option<string>,
    phoneVerified: bool,
    phoneVerificationToken: Option<string>,
    passwordResetToken: Option<string>,
    passwordResetExpiry: Option<int>,
    password: string,
    avatar: Option<string>,
    role: string,
    tenantId: Option<Id>,
    status: string,
    contacts: seq<Contact>,
    blockedUsers: seq<BlockEntry>,
    fcmTokens: seq<FcmToken>,
    refreshTokens: seq<RefreshToken>,
    lastLogin: Option<int>)

  /** What `toJSON` exposes: everything except the three secrets. */
  datatype UserJson = UserJson(
    id: Id,
    name: string,
    email: string,
    phone: Option<string>,
    phoneVerified: bool,
    passwordResetToken: Option<string>,
    passwordResetExpiry: Option<int>,
    avatar: Option<string>,
    role: string,
    tenantId: Option<Id>,
    status: string,
    contacts: seq<Contact>,
    blockedUsers: seq<BlockEntry>,
    fcmTokens: seq<FcmToken>,
    lastLogin: Option<int>)

  function ToJson(u: UserRecord): (j: UserJson)
    ensures j.id == u.id && j.email == u.email && j.role == u.role && j.status == u.status
    ensures j.contacts == u.contacts && j.blockedUsers == u.blockedUsers
  {
    UserJson(u.id, u.name, u.email, u.phone, u.phoneVerified, u.passwordResetToken,
             u.passwordResetExpiry, u.avatar, u.role, u.tenantId, u.status, u.contacts,
             u.blockedUsers, u.fcmTokens, u.lastLogin)
  }

  /** The JSON form does not depend on the password, refresh tokens or phone code. */
  lemma ToJsonHidesSecrets(u: UserRecord, password: string, tokens: seq<RefreshToken>,
                           code: Option<string>)
    ensures ToJson(u.(password := password, refreshTokens := tokens,
                      phoneVerificationToken := code)) == ToJson(u)
  {
  }

  /** The document, whose methods reassign its lists. */
  class User {
    var id: Id
    var name: string
    var email: string
    var phone: Option<string>
    var phoneVerified: bool
    var phoneVerificationToken: Option<string>
    var passwordResetToken: Option<string>
    var passwordResetExpiry: Option<int>
    var password: string
    var avatar: Option<string>
    var role: string
    var tenantId: Option<Id>
    var status: string
    var contacts: seq<Contact>
    var blockedUsers: seq<BlockEntry>
    var fcmTokens: seq<FcmToken>
    var refreshTokens: seq<RefreshToken>
    var lastLogin: Option<int>

    function Record(): UserRecord
      reads this
    {
      UserRecord(id, name, email, phone, phoneVerified, phoneVerificationToken, passwordResetToken,
                 passwordResetExpiry, password, avatar, role, tenantId, status, contacts,
                 blockedUsers, fcmTokens, refreshTokens, lastLogin)
    }

    /** A new user with the schema defaults: USER, ACTIVE, unverified phone, empty lists. */
    constructor (id: Id, name: string, email: string, password: string, phone: Option<string>,
                 tenantId: Option<Id>)
      ensures Record() == UserRecord(id, name, email, phone, false, None, None, None, password,
                                     None, USER, tenantId, ACTIVE, [], [], [], [], None)
    {
      this.id := id;
      this.name := name;
      this.email := email;
      this.password := password;
      this.phone := phone;
      this.tenantId := tenantId;
      phoneVerified := false;
      phoneVerificationToken := None;
      passwordResetToken := None;
      passwordResetExpiry := None;
      avatar := None;
      role := USER;
      status := ACTIVE;
      contacts := [];
      blockedUsers := [];
      fcmTokens := [];
      refreshTokens := [];
      lastLogin := None;
    }

    method AddContact(u: Id, phone: Option<string>, email: Option<string>, name: Option<string>,
                      contactName: Option<string>, now: int)
      modifies this
      ensures Record() == old(Record()).(contacts := ContactAdded(old(contacts), u, phone, email, name,
                                                                 contactName, now))
    {
      var existing := GetContact(contacts, u);
      if existing.None? {
        contacts := contacts + [Contact(u, phone, email, name, now, false, DisplayNameOr(contactName, name))];
      }
    }

    method RemoveContact(u: Id)
      modifies this
      ensures Record() == old(Record()).(contacts := ContactRemoved(old(contacts), u))
    {
      contacts := Filter(contacts, c => NotContact(u, c));
    }

    method MarkContactAsFavorite(u: Id)
      modifies this
      ensures Record() == old(Record()).(contacts := FavoriteSet(old(contacts), u, true))
    {
      contacts := FavoriteSet(contacts, u, true);
    }

    method UnmarkContactAsFavorite(u: Id)
      modifies this
      ensures Record() == old(Record()).(contacts := FavoriteSet(old(contacts), u, false))
    {
      contacts := FavoriteSet(contacts, u, false);
    }

    method BlockUser(u: Id, now: int)
      modifies this
      ensures Record() == old(Record()).(blockedUsers := BlockAdded(old(blockedUsers), u, now))
    {
      if !IsBlocked(blockedUsers, u) {
        blockedUsers := blockedUsers + [BlockEntry(u, now)];
      }
    }

    method UnblockUser(u: Id)
      modifies this
      ensures Record() == old(Record()).(blockedUsers := BlockRemoved(old(blockedUsers), u))
    {
      blockedUsers := Filter(blockedUsers, b => NotBlockedEntry(u, b));
    }

    method AddRefreshToken(token: string, expiresAt: int, ip: Option<string>, agent: Option<string>,
                           now: int)
      modifies this
      ensures Record() == old(Record()).(refreshTokens := TokenAdded(old(refreshTokens), token, expiresAt,
                                                                      ip, agent, now))
    {
      refreshTokens := Filter(refreshTokens, LiveAt(now));
      refreshTokens := refreshTokens + [RefreshToken(token, expiresAt, None, ip, agent, now)];
      if |refreshTokens| > MAX_REFRESH_TOKENS {
        refreshTokens := refreshTokens[|refreshTokens| - MAX_REFRESH_TOKENS..];
      }
    }

    method RevokeRefreshToken(token: string, now: int)
      modifies this
      ensures Record() == old(Record()).(refreshTokens := TokenRevoked(old(refreshTokens), token, now))
    {
      refreshTokens := RevokeFirst(refreshTokens, t => HasToken(token, t), now);
    }

    /** `revokeAllRefreshTokens`: the `forEach` that stamps every record. */
    method RevokeAllRefreshTokens(now: int)
      modifies this
      ensures Record() == old(Record()).(refreshTokens := AllRevoked(old(refreshTokens), now))
    {
      var i := 0;
      while i < |refreshTokens|
        invariant 0 <= i <= |refreshTokens| == |old(refreshTokens)|
        invariant forall k :: 0 <= k < i ==> refreshTokens[k] == old(refreshTokens)[k].(revokedAt := Some(now))
        invariant forall k :: i <= k < |refreshTokens| ==> refreshTokens[k] == old(refreshTokens)[k]
        invariant Record() == old(Record()).(refreshTokens := refreshTokens)
      {
        refreshTokens := refreshTokens[i := refreshTokens[i].(revokedAt := Some(now))];
        i := i + 1;
      }
    }

    method RevokeSessionByAgent(agent: Option<string>, now: int)
      modifies this
      ensures Record() == old(Record()).(refreshTokens := AgentRevoked(old(refreshTokens), agent, now))
    {
      refreshTokens := RevokeFirst(refreshTokens, t => HasAgent(agent, t), now);
    }

    /** The token-cleaning pre-save hook (the password-hashing hook is not modelled). */
    method PreSave(now: int)
      modifies this
      ensures Record() == old(Record()).(refreshTokens := CleanedTokens(old(refreshTokens), now))
    {
      refreshTokens := Filter(refreshTokens, LiveAt(now));
      if |refreshTokens| > MAX_REFRESH_TOKENS {
        refreshTokens := refreshTokens[|refreshTokens| - MAX_REFRESH_TOKENS..];
      }
    }
  }
}
