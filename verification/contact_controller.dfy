/**
 * The contact controller: adding, removing, renaming and starring contacts,
 * blocking and unblocking users, and the three listings (all contacts
 * sorted, a search, the favourites) with their unchecked page arithmetic.
 *
 * The handlers that change the caller's document work on a `User` object
 * and call its list methods; `null` is a document `findById` did not find.
 * Each handler is specified by a function of the document before the call.
 * Populated contact profiles are looked up in `users`, a map from id to
 * document; `addContact` searches `people`, the users collection in natural
 * order.
 */
module ContactController {
  import opened Common
  import opened UserModel

  const IDENTIFIER_REQUIRED := "Phone number or email is required"
  const TARGET_NOT_FOUND := "User not found with this phone or email"
  const USER_NOT_FOUND := "User not found"
  const CONTACT_EXISTS := "Contact already exists"
  const CONTACT_ADDED := "Contact added successfully"
  const CONTACT_NOT_FOUND := "Contact not found"
  const CONTACT_REMOVED := "Contact removed successfully"
  const USER_ID_REQUIRED := "User ID is required"
  const SELF_BLOCK := "Cannot block yourself"
  const ALREADY_BLOCKED := "User is already blocked"
  const USER_BLOCKED := "User blocked successfully"
  const NOT_BLOCKED := "User is not blocked"
  const USER_UNBLOCKED := "User unblocked successfully"
  const FAVORITE_MARKED := "Contact marked as favorite"
  const FAVORITE_UNMARKED := "Contact unmarked from favorites"
  const NAME_REQUIRED := "Contact name is required"
  const NAME_UPDATED := "Contact name updated"
  const QUERY_REQUIRED := "Search query is required"

  const DEFAULT_LIMIT := 50
  const SEARCH_DEFAULT_LIMIT := 20

  /** A handler's answer and the caller's document afterwards (`None` when it was not found). */
  datatype ContactStep = ContactStep(status: int, message: string, rec: Option<UserRecord>)

  function Refuse(status: int, message: string, rec: Option<UserRecord>): ContactStep
  {
    ContactStep(status, message, rec)
  }

  // ---------------------------------------------------------------------
  // Blocking
  // ---------------------------------------------------------------------

  /**
   * `blockUser`: a given id that is not the caller's own, a found document,
   * a user not yet blocked; then block and drop them from the contacts.
   */
  function BlockSpec(callerId: Id, rec: Option<UserRecord>, blockId: Id, now: int): (r: ContactStep)
    ensures r.status == 200 <==>
      blockId != "" && blockId != callerId && rec.Some? && !IsBlocked(rec.value.blockedUsers, blockId)
    ensures r.status != 200 ==> r.rec == rec
    ensures r.status == 200 ==>
      r.rec.Some? && IsBlocked(r.rec.value.blockedUsers, blockId) &&
      GetContact(r.rec.value.contacts, blockId).None? &&
      r.rec.value == rec.value.(blockedUsers := r.rec.value.blockedUsers, contacts := r.rec.value.contacts)
    ensures rec.Some? && blockId != "" && blockId != callerId && IsBlocked(rec.value.blockedUsers, blockId) ==>
      r.status == 400 && r.message == ALREADY_BLOCKED
  {
    if blockId == "" then Refuse(400, USER_ID_REQUIRED, rec)
    else if blockId == callerId then Refuse(400, SELF_BLOCK, rec)
    else if rec.None? then Refuse(404, USER_NOT_FOUND, rec)
    else if IsBlocked(rec.value.blockedUsers, blockId) then Refuse(400, ALREADY_BLOCKED, rec)
    else
      var u := rec.value;
      ContactStep(200, USER_BLOCKED, Some(u.(blockedUsers := BlockAdded(u.blockedUsers, blockId, now),
                                             contacts := ContactRemoved(u.contacts, blockId))))
  }

  /** Blocked users and the other contacts are kept by a block. */
  lemma BlockKeepsOthers(callerId: Id, rec: UserRecord, blockId: Id, now: int)
    requires BlockSpec(callerId, Some(rec), blockId, now).status == 200
    ensures var after := BlockSpec(callerId, Some(rec), blockId, now).rec.value;
      (forall v :: IsBlocked(rec.blockedUsers, v) ==> IsBlocked(after.blockedUsers, v)) &&
      (forall k :: 0 <= k < |rec.contacts| && rec.contacts[k].userId != blockId ==> rec.contacts[k] in after.contacts)
  {
  }

  /** `unblockUser`: a given id, a found document, a user currently blocked. There is no self check. */
  function UnblockSpec(rec: Option<UserRecord>, unblockId: Id): (r: ContactStep)
    ensures r.status == 200 <==> unblockId != "" && rec.Some? && IsBlocked(rec.value.blockedUsers, unblockId)
    ensures r.status != 200 ==> r.rec == rec
    ensures r.status == 200 ==>
      r.rec == Some(rec.value.(blockedUsers := BlockRemoved(rec.value.blockedUsers, unblockId))) &&
      !IsBlocked(r.rec.value.blockedUsers, unblockId)
  {
    if unblockId == "" then Refuse(400, USER_ID_REQUIRED, rec)
    else if rec.None? then Refuse(404, USER_NOT_FOUND, rec)
    else if !IsBlocked(rec.value.blockedUsers, unblockId) then Refuse(400, NOT_BLOCKED, rec)
    else
      ContactStep(200, USER_UNBLOCKED, Some(rec.value.(blockedUsers := BlockRemoved(rec.value.blockedUsers, unblockId))))
  }

  /**
   * Unblocking right after blocking restores the blocked list exactly, but
   * not the contact the block removed.
   */
  lemma UnblockUndoesBlockButNotContact(callerId: Id, rec: UserRecord, u: Id, now: int)
    requires BlockSpec(callerId, Some(rec), u, now).status == 200
    ensures var b := BlockSpec(callerId, Some(rec), u, now);
      var ub := UnblockSpec(b.rec, u);
      ub.status == 200 &&
      ub.rec.value.blockedUsers == rec.blockedUsers &&
      ub.rec.value.contacts == ContactRemoved(rec.contacts, u)
  {
    var bs := rec.blockedUsers;
    var entry := BlockEntry(u, now);
    var p := (b: BlockEntry) => NotBlockedEntry(u, b);
    FilterAppend(bs, [entry], p);
    assert Filter([entry], p) == [];
    forall k | 0 <= k < |bs| ensures p(bs[k]) {
      assert !IsBlocked(bs, u);
    }
    FilterAll(bs, p);
  }

  /** Blocking a user twice is refused the second time. */
  lemma BlockTwiceRefused(callerId: Id, rec: UserRecord, u: Id, t1: int, t2: int)
    requires BlockSpec(callerId, Some(rec), u, t1).status == 200
    ensures BlockSpec(callerId, BlockSpec(callerId, Some(rec), u, t1).rec, u, t2).message == ALREADY_BLOCKED
  {
  }

  // ---------------------------------------------------------------------
  // Adding and editing contacts
  // ---------------------------------------------------------------------

  /** The `addContact` query: phone as given, or e-mail lowercased; not the caller; active. */
  predicate TargetMatches(u: UserRecord, identifier: string, callerId: Id)
    ensures TargetMatches(u, identifier, callerId) ==> u.id != callerId && u.status == ACTIVE
    ensures u.id != callerId && u.status == ACTIVE && u.email == ToLower(identifier) ==> TargetMatches(u, identifier, callerId)
  {
    (u.phone == Some(identifier) || u.email == ToLower(identifier)) && u.id != callerId && u.status == ACTIVE
  }

  function FindTarget(people: seq<UserRecord>, identifier: string, callerId: Id): (r: Option<UserRecord>)
    ensures r.Some? ==> r.value in people && TargetMatches(r.value, identifier, callerId)
    ensures r.None? ==> forall k :: 0 <= k < |people| ==> !TargetMatches(people[k], identifier, callerId)
  {
    if people == [] then None
    else if TargetMatches(people[0], identifier, callerId) then Some(people[0])
    else
      var r := FindTarget(people[1..], identifier, callerId);
      assert forall k :: 1 <= k < |people| ==> people[k] == people[1..][k - 1];
      r
  }

  /**
   * `addContact`. A blocked user is not refused. The caller's document is
   * required: a missing one makes the source throw.
   */
  function AddContactSpec(rec: UserRecord, people: seq<UserRecord>, identifier: string,
                          contactName: Option<string>, now: int): (r: ContactStep)
    ensures identifier == "" ==> r.status == 400 && r.message == IDENTIFIER_REQUIRED
    ensures r.status == 201 <==>
      identifier != "" && FindTarget(people, identifier, rec.id).Some? &&
      GetContact(rec.contacts, FindTarget(people, identifier, rec.id).value.id).None?
    ensures r.status != 201 ==> r.rec == Some(rec)
    ensures r.status == 201 ==>
      var t := FindTarget(people, identifier, rec.id).value;
      r.rec.Some? && r.rec.value == rec.(contacts := r.rec.value.contacts) &&
      r.rec.value.contacts == rec.contacts + [Contact(t.id, t.phone, Some(t.email), Some(t.name), now, false,
                                                      DisplayNameOr(contactName, Some(t.name)))] &&
      (UniqueContacts(rec.contacts) ==> UniqueContacts(r.rec.value.contacts))
  {
    if identifier == "" then Refuse(400, IDENTIFIER_REQUIRED, Some(rec))
    else
      match FindTarget(people, identifier, rec.id)
      case None => Refuse(404, TARGET_NOT_FOUND, Some(rec))
      case Some(t) =>
        if GetContact(rec.contacts, t.id).Some? then Refuse(400, CONTACT_EXISTS, Some(rec))
        else
          var cs := ContactAdded(rec.contacts, t.id, t.phone, Some(t.email), Some(t.name),
                                 DisplayNameOr(contactName, Some(t.name)), now);
          ContactStep(201, CONTACT_ADDED, Some(rec.(contacts := cs)))
  }

  /** Blocking a user does not keep them from being added back as a contact. */
  lemma BlockedUserCanBeAdded(callerId: Id, rec: UserRecord, people: seq<UserRecord>, identifier: string,
                              contactName: Option<string>, t1: int, t2: int)
    requires rec.id == callerId && identifier != ""
    requires FindTarget(people, identifier, callerId).Some?
    requires BlockSpec(callerId, Some(rec), FindTarget(people, identifier, callerId).value.id, t1).status == 200
    ensures var t := FindTarget(people, identifier, callerId).value;
      var blocked := BlockSpec(callerId, Some(rec), t.id, t1).rec.value;
      IsBlocked(blocked.blockedUsers, t.id) &&
      AddContactSpec(blocked, people, identifier, contactName, t2).status == 201
  {
  }

  /** `removeContact`: 404 unless the contact exists. */
  function RemoveSpec(rec: Option<UserRecord>, contactId: Id): (r: ContactStep)
    ensures r.status == 200 <==> rec.Some? && GetContact(rec.value.contacts, contactId).Some?
    ensures r.status != 200 ==> r.rec == rec
    ensures r.status == 200 ==>
      r.rec == Some(rec.value.(contacts := ContactRemoved(rec.value.contacts, contactId))) &&
      GetContact(r.rec.value.contacts, contactId).None?
  {
    if rec.None? then Refuse(404, USER_NOT_FOUND, rec)
    else if GetContact(rec.value.contacts, contactId).None? then Refuse(404, CONTACT_NOT_FOUND, rec)
    else ContactStep(200, CONTACT_REMOVED, Some(rec.value.(contacts := ContactRemoved(rec.value.contacts, contactId))))
  }

  /** `markFavorite` (`fav`) and `unmarkFavorite` (`!fav`). */
  function FavoriteSpec(rec: Option<UserRecord>, contactId: Id, fav: bool): (r: ContactStep)
    ensures r.status == 200 <==> rec.Some? && GetContact(rec.value.contacts, contactId).Some?
    ensures r.status != 200 ==> r.rec == rec
    ensures r.status == 200 ==>
      r.rec == Some(rec.value.(contacts := FavoriteSet(rec.value.contacts, contactId, fav))) &&
      GetContact(r.rec.value.contacts, contactId).value.isFavorite == fav
  {
    if rec.None? then Refuse(404, USER_NOT_FOUND, rec)
    else if GetContact(rec.value.contacts, contactId).None? then Refuse(404, CONTACT_NOT_FOUND, rec)
    else
      ContactStep(200, if fav then FAVORITE_MARKED else FAVORITE_UNMARKED,
                  Some(rec.value.(contacts := FavoriteSet(rec.value.contacts, contactId, fav))))
  }

  /** `contact.contactName = contactName` on the first entry for the user. */
  function ContactRenamed(cs: seq<Contact>, u: Id, name: string): (r: seq<Contact>)
    requires GetContact(cs, u).Some?
    ensures |r| == |cs|
    ensures GetContact(r, u) == Some(GetContact(cs, u).value.(contactName := Some(name)))
    ensures forall k :: 0 <= k < |cs| ==> r[k] == cs[k] || (cs[k].userId == u && r[k] == cs[k].(contactName := Some(name)))
  {
    var i := FirstContact(cs, u).value;
    var r := cs[i := cs[i].(contactName := Some(name))];
    assert FirstContact(r, u) == Some(i) by {
      assert r[i].userId == u;
      assert forall k :: 0 <= k < i ==> r[k].userId != u;
    }
    r
  }

  /** `updateContactName`: a non-empty name, a found document, an existing contact. */
  function RenameSpec(rec: Option<UserRecord>, contactId: Id, contactName: string): (r: ContactStep)
    ensures r.status == 200 <==> contactName != "" && rec.Some? && GetContact(rec.value.contacts, contactId).Some?
    ensures r.status != 200 ==> r.rec == rec
    ensures r.status == 200 ==>
      r.rec.Some? && r.rec.value == rec.value.(contacts := r.rec.value.contacts) &&
      GetContact(r.rec.value.contacts, contactId) ==
        Some(GetContact(rec.value.contacts, contactId).value.(contactName := Some(contactName)))
  {
    if contactName == "" then Refuse(400, NAME_REQUIRED, rec)
    else if rec.None? then Refuse(404, USER_NOT_FOUND, rec)
    else if GetContact(rec.value.contacts, contactId).None? then Refuse(404, CONTACT_NOT_FOUND, rec)
    else
      ContactStep(200, NAME_UPDATED, Some(rec.value.(contacts := ContactRenamed(rec.value.contacts, contactId, contactName))))
  }

  // ---------------------------------------------------------------------
  // Listings
  // ---------------------------------------------------------------------

  /** One page of a listing and its pagination block. */
  datatype Listing<T> = Listing(items: seq<T>, page: int, limit: int, total: nat, pages: int)

  /** `Math.ceil(total / limit)` for any non-zero limit. */
  function JsPages(total: nat, limit: int): (pages: int)
    requires limit != 0
    ensures limit >= 1 ==> pages == PageCount(total, limit)
    ensures limit <= -1 ==> pages <= 0
  {
    if limit >= 1 then PageCount(total, limit) else -(total / -limit)
  }

  /**
   * `parseInt(page) || 1`, `parseInt(limit) || defaultLimit`, then
   * `slice(skip, skip + limit)`. Nothing checks the range, so a negative
   * page or limit reaches `slice`, which counts negative indexes from the end.
   */
  function ListPage<T>(items: seq<T>, rawPage: Option<int>, rawLimit: Option<int>, defaultLimit: int): (r: Listing<T>)
    requires defaultLimit >= 1
    ensures r.total == |items| && r.page != 0 && r.limit != 0 && |r.items| <= |items|
    ensures r.page == ParseIntOr(rawPage, 1) && r.limit == ParseIntOr(rawLimit, defaultLimit)
    ensures r.pages == JsPages(|items|, r.limit)
  {
    var page := ParseIntOr(rawPage, 1);
    var limit := ParseIntOr(rawLimit, defaultLimit);
    var skip := (page - 1) * limit;
    Listing(JsSlice(items, skip, skip + limit), page, limit, |items|, JsPages(|items|, limit))
  }

  /** With a positive page and limit the listing is the `page`-th window of `limit` items. */
  lemma PageIsWindow<T>(items: seq<T>, page: int, limit: int, defaultLimit: int)
    requires page >= 1 && limit >= 1 && defaultLimit >= 1
    ensures var l := ListPage(items, Some(page), Some(limit), defaultLimit);
      var skip := (page - 1) * limit;
      var from := if skip < |items| then skip else |items|;
      var to := if skip + limit < |items| then skip + limit else |items|;
      0 <= from <= to && l.items == items[from..to] && |l.items| <= limit
  {
    MulMonotone(0, page - 1, limit);
  }

  /** Every item is on the page its index says, at its offset within the page. */
  lemma ItemOnPage<T>(items: seq<T>, limit: int, k: nat, defaultLimit: int)
    requires 1 <= limit && defaultLimit >= 1 && k < |items|
    ensures var p := k / limit + 1;
      var l := ListPage(items, Some(p), Some(limit), defaultLimit);
      p <= l.pages && (p - 1) * limit <= k < p * limit &&
      k - (p - 1) * limit < |l.items| && l.items[k - (p - 1) * limit] == items[k]
  {
    var q := k / limit;
    var p := q + 1;
    assert q * limit <= k < q * limit + limit;
    assert p * limit == q * limit + limit;
    assert (p - 1) * limit == q * limit;
    PageIsWindow(items, p, limit, defaultLimit);
    var n := PageCount(|items|, limit);
    if n < p {
      MulMonotone(n, q, limit);
      assert false;
    }
  }

  lemma MulMonotone(a: nat, b: nat, c: int)
    requires a <= b && c >= 1
    ensures a * c <= b * c
  {
  }

  /** Page -1 returns the second-to-last window of `limit` items instead of an error. */
  lemma NegativePageReadsFromEnd<T>(items: seq<T>, limit: int, defaultLimit: int)
    requires 1 <= limit && defaultLimit >= 1 && |items| >= 2 * limit
    ensures ListPage(items, Some(-1), Some(limit), defaultLimit).items == items[|items| - 2 * limit..|items| - limit]
  {
    var skip := (-1 - 1) * limit;
    assert skip == -2 * limit && skip + limit == -limit;
    assert SliceIndex(|items|, skip) == |items| - 2 * limit;
    assert SliceIndex(|items|, skip + limit) == |items| - limit;
    assert ListPage(items, Some(-1), Some(limit), defaultLimit).items == JsSlice(items, skip, skip + limit);
  }

  predicate IsFavorite(c: Contact)
  {
    c.isFavorite
  }

  predicate NotFavorite(c: Contact)
  {
    !c.isFavorite
  }

  /** `getFavoriteContacts`: the starred contacts, in stored order. */
  function Favorites(cs: seq<Contact>): (r: seq<Contact>)
    ensures forall i :: 0 <= i < |r| ==> r[i].isFavorite && r[i] in cs
    ensures forall i :: 0 <= i < |cs| && cs[i].isFavorite ==> cs[i] in r
  {
    Filter(cs, IsFavorite)
  }

  /** A contact just starred shows up in the favourites listing. */
  lemma StarredIsListed(rec: UserRecord, contactId: Id)
    requires FavoriteSpec(Some(rec), contactId, true).status == 200
    ensures var after := FavoriteSpec(Some(rec), contactId, true).rec.value;
      GetContact(after.contacts, contactId).value in Favorites(after.contacts)
  {
    var after := FavoriteSpec(Some(rec), contactId, true).rec.value;
    var c := GetContact(after.contacts, contactId).value;
    var k :| 0 <= k < |after.contacts| && after.contacts[k] == c;
  }

  lemma {:induction false} FilterSplit(cs: seq<Contact>)
    ensures multiset(Filter(cs, IsFavorite)) + multiset(Filter(cs, NotFavorite)) == multiset(cs)
  {
    if cs != [] {
      var init := cs[..|cs| - 1];
      FilterSplit(init);
      assert cs == init + [cs[|cs| - 1]];
    }
  }

  /**
   * Sort `'favorite'`: the comparator `b.isFavorite - a.isFavorite` under a
   * stable sort puts the starred contacts first, each group in stored order.
   */
  function FavoritesFirst(cs: seq<Contact>): (r: seq<Contact>)
    ensures multiset(r) == multiset(cs)
    ensures forall i, j :: 0 <= i < j < |r| && !r[i].isFavorite ==> !r[j].isFavorite
  {
    var fav := Filter(cs, IsFavorite);
    var rest := Filter(cs, NotFavorite);
    FilterSplit(cs);
    fav + rest
  }

  /** The sort is stable, as `Array.sort` is: starred and unstarred contacts each keep their stored order. */
  lemma FavoritesFirstStable(cs: seq<Contact>)
    ensures Filter(FavoritesFirst(cs), IsFavorite) == Filter(cs, IsFavorite)
    ensures Filter(FavoritesFirst(cs), NotFavorite) == Filter(cs, NotFavorite)
  {
    var fav := Filter(cs, IsFavorite);
    var rest := Filter(cs, NotFavorite);
    FilterAppend(fav, rest, IsFavorite);
    FilterAppend(fav, rest, NotFavorite);
    FilterAll(fav, IsFavorite);
    FilterAll(rest, NotFavorite);
    NoneKept(fav, NotFavorite);
    NoneKept(rest, IsFavorite);
  }

  /** A filter that no starred, or no unstarred, contact passes keeps nothing. */
  lemma {:induction false} NoneKept(s: seq<Contact>, p: Contact -> bool)
    requires forall i :: 0 <= i < |s| ==> !p(s[i])
    ensures Filter(s, p) == []
  {
    if s != [] {
      var init := s[..|s| - 1];
      assert s == init + [s[|s| - 1]];
      NoneKept(init, p);
      FilterSnoc(init, s[|s| - 1], p);
    }
  }

  predicate NewestFirst(cs: seq<Contact>)
  {
    forall i, j :: 0 <= i < j < |cs| ==> cs[i].addedAt >= cs[j].addedAt
  }

  /** Insert after every entry at least as recent, so equal dates keep their order. */
  function InsertByDate(sorted: seq<Contact>, c: Contact): (r: seq<Contact>)
    requires NewestFirst(sorted)
    ensures NewestFirst(r)
    ensures multiset(r) == multiset(sorted) + multiset{c}
    ensures |r| == |sorted| + 1
  {
    if sorted == [] then [c]
    else if sorted[0].addedAt >= c.addedAt then
      var tail := InsertByDate(sorted[1..], c);
      assert sorted == [sorted[0]] + sorted[1..];
      HeadBoundsInsert(sorted, c, tail);
      PrependNewest(sorted[0], tail);
      [sorted[0]] + tail
    else
      PrependNewest(c, sorted);
      [c] + sorted
  }

  /** Nothing in the rest of a newest-first list, nor an older contact, is newer than its head. */
  lemma HeadBoundsInsert(sorted: seq<Contact>, c: Contact, tail: seq<Contact>)
    requires NewestFirst(sorted) && sorted != [] && sorted[0].addedAt >= c.addedAt
    requires multiset(tail) == multiset(sorted[1..]) + multiset{c}
    ensures forall i :: 0 <= i < |tail| ==> tail[i].addedAt <= sorted[0].addedAt
  {
    forall i | 0 <= i < |tail| ensures tail[i].addedAt <= sorted[0].addedAt {
      var x := tail[i];
      assert x in multiset(tail);
      if x != c {
        assert x in multiset(sorted[1..]);
        var j :| 0 <= j < |sorted[1..]| && sorted[1..][j] == x;
        assert sorted[j + 1] == x;
      }
    }
  }

  lemma PrependNewest(h: Contact, tail: seq<Contact>)
    requires NewestFirst(tail)
    requires forall i :: 0 <= i < |tail| ==> tail[i].addedAt <= h.addedAt
    ensures NewestFirst([h] + tail)
  {
    var r := [h] + tail;
    forall i, j | 0 <= i < j < |r| ensures r[i].addedAt >= r[j].addedAt {
      assert r[j] == tail[j - 1];
      if i > 0 {
        assert r[i] == tail[i - 1];
      }
    }
  }

  /** Sort `'date'`: newest first, a stable insertion sort of the stored order. */
  function SortByDate(cs: seq<Contact>): (r: seq<Contact>)
    ensures NewestFirst(r)
    ensures multiset(r) == multiset(cs)
  {
    if cs == [] then []
    else
      assert cs == cs[..|cs| - 1] + [cs[|cs| - 1]];
      InsertByDate(SortByDate(cs[..|cs| - 1]), cs[|cs| - 1])
  }

  /** The contacts added at one instant. */
  function AddedAt(d: int): Contact -> bool
  {
    (c: Contact) => c.addedAt == d
  }

  /** Inserting keeps the entries of each date in order, with the new one after those of its date. */
  lemma {:induction false} InsertByDateStable(sorted: seq<Contact>, c: Contact, d: int)
    requires NewestFirst(sorted)
    ensures Filter(InsertByDate(sorted, c), AddedAt(d)) ==
            Filter(sorted, AddedAt(d)) + (if c.addedAt == d then [c] else [])
  {
    var p := AddedAt(d);
    var mine := if c.addedAt == d then [c] else [];
    assert Filter([c], p) == mine by {
      assert [] + [c] == [c];
      FilterSnoc([], c, p);
    }
    if sorted == [] {
      assert InsertByDate(sorted, c) == [c];
    } else if sorted[0].addedAt >= c.addedAt {
      var tail := InsertByDate(sorted[1..], c);
      assert InsertByDate(sorted, c) == [sorted[0]] + tail;
      InsertByDateStable(sorted[1..], c, d);
      FilterUnderHead(sorted, tail, p, mine);
    } else {
      assert InsertByDate(sorted, c) == [c] + sorted;
      FilterAppend([c], sorted, p);
      if c.addedAt == d {
        NoneAddedAt(sorted, c.addedAt);
      }
    }
  }

  /** Putting back the head of `s` in front of a list that filters like its tail plus `extra`. */
  lemma FilterUnderHead(s: seq<Contact>, tail: seq<Contact>, p: Contact -> bool, extra: seq<Contact>)
    requires s != [] && Filter(tail, p) == Filter(s[1..], p) + extra
    ensures Filter([s[0]] + tail, p) == Filter(s, p) + extra
  {
    var a, b := Filter([s[0]], p), Filter(s[1..], p);
    FilterAppend([s[0]], tail, p);
    FilterAppend([s[0]], s[1..], p);
    ConcatAssoc(a, b, extra);
    HeadTail(s);
  }

  /** Nothing in a newest-first list whose head is older than `d` was added at `d`. */
  lemma NoneAddedAt(sorted: seq<Contact>, d: int)
    requires NewestFirst(sorted) && sorted != [] && sorted[0].addedAt < d
    ensures Filter(sorted, AddedAt(d)) == []
  {
    assert forall i :: 0 <= i < |sorted| ==> sorted[i].addedAt <= sorted[0].addedAt;
  }

  /**
   * The date sort is stable: the contacts of any one date come out in the
   * order they are stored in, as `Array.prototype.sort` keeps them.
   */
  lemma {:induction false} SortByDateStable(cs: seq<Contact>, d: int)
    ensures Filter(SortByDate(cs), AddedAt(d)) == Filter(cs, AddedAt(d))
  {
    if cs != [] {
      var init := cs[..|cs| - 1];
      var last := cs[|cs| - 1];
      assert cs == init + [last];
      SortByDateStable(init, d);
      InsertByDateStable(SortByDate(init), last, d);
      FilterSnoc(init, last, AddedAt(d));
    }
  }

  /** `getAllContacts` with sort `'favorite'` or `'date'` (the name sort is not modelled). */
  datatype SortMode = ByFavorite | ByDate

  function SortedContacts(cs: seq<Contact>, mode: SortMode): (r: seq<Contact>)
    ensures multiset(r) == multiset(cs)
  {
    match mode
    case ByFavorite => FavoritesFirst(cs)
    case ByDate => SortByDate(cs)
  }

  function AllContacts(cs: seq<Contact>, mode: SortMode, rawPage: Option<int>, rawLimit: Option<int>): (r: Listing<Contact>)
    ensures r.total == |cs|
  {
    var sorted := SortedContacts(cs, mode);
    assert |sorted| == |multiset(sorted)| == |multiset(cs)| == |cs|;
    ListPage(sorted, rawPage, rawLimit, DEFAULT_LIMIT)
  }

  /** A page of the sorted listing only shows stored contacts. */
  lemma AllContactsFromStore(cs: seq<Contact>, mode: SortMode, page: int, limit: int)
    requires page >= 1 && limit >= 1
    ensures var l := AllContacts(cs, mode, Some(page), Some(limit));
      forall i :: 0 <= i < |l.items| ==> l.items[i] in cs
  {
    var sorted := SortedContacts(cs, mode);
    var l := AllContacts(cs, mode, Some(page), Some(limit));
    assert l == ListPage(sorted, Some(page), Some(limit), DEFAULT_LIMIT);
    PageIsWindow(sorted, page, limit, DEFAULT_LIMIT);
    forall i | 0 <= i < |l.items| ensures l.items[i] in cs {
      var x := l.items[i];
      assert x in sorted;
      assert x in multiset(sorted);
      assert x in multiset(cs);
    }
  }

  /** `contactName || name || ''`. */
  function ShownName(c: Contact): string
  {
    match DisplayNameOr(c.contactName, c.name)
    case Some(n) => n
    case None => ""
  }

  /** A populated field of the contact's user, `''` when the user is gone. */
  function ProfileEmail(users: map<Id, UserRecord>, c: Contact): string
  {
    if c.userId in users then users[c.userId].email else ""
  }

  function ProfilePhone(users: map<Id, UserRecord>, c: Contact): string
  {
    if c.userId in users && users[c.userId].phone.Some? then users[c.userId].phone.value else ""
  }

  /**
   * The search predicate: the lowercased query in the lowercased shown name
   * or in the lowercased e-mail of the user, or the raw query in their phone.
   */
  predicate SearchHit(users: map<Id, UserRecord>, query: string, c: Contact)
  {
    Contains(ToLower(ShownName(c)), ToLower(query)) ||
    Contains(ToLower(ProfileEmail(users, c)), ToLower(query)) ||
    Contains(ProfilePhone(users, c), query)
  }

  function SearchHitFor(users: map<Id, UserRecord>, query: string): Contact -> bool
  {
    c => SearchHit(users, query, c)
  }

  datatype SearchOutcome = SearchRefused(status: int, message: string) | SearchDone(listing: Listing<Contact>)

  /** `searchContacts`: 400 without a query; `total` counts every hit, the page is a slice of them. */
  function SearchContacts(users: map<Id, UserRecord>, cs: seq<Contact>, query: string, rawPage: Option<int>,
                          rawLimit: Option<int>): (r: SearchOutcome)
    ensures query == "" <==> r == SearchRefused(400, QUERY_REQUIRED)
    ensures r.SearchDone? ==>
      var hits := Filter(cs, SearchHitFor(users, query));
      r.listing.total == |hits| &&
      (forall i :: 0 <= i < |hits| ==> SearchHit(users, query, hits[i]) && hits[i] in cs) &&
      (forall i :: 0 <= i < |cs| && SearchHit(users, query, cs[i]) ==> cs[i] in hits)
  {
    if query == "" then SearchRefused(400, QUERY_REQUIRED)
    else SearchDone(ListPage(Filter(cs, SearchHitFor(users, query)), rawPage, rawLimit, SEARCH_DEFAULT_LIMIT))
  }

  /** The name test ignores ASCII case; the phone test does not need to. */
  lemma SearchIgnoresCase(users: map<Id, UserRecord>, c: Contact, query: string)
    requires Contains(ToLower(ShownName(c)), ToLower(query))
    ensures SearchHit(users, ToLower(query), c)
  {
    LowerIdempotent(query);
  }

  lemma LowerIdempotent(s: string)
    ensures ToLower(ToLower(s)) == ToLower(s)
  {
    assert forall i :: 0 <= i < |s| ==> LowerChar(LowerChar(s[i])) == LowerChar(s[i]);
  }

  // ---------------------------------------------------------------------
  // The handlers on the caller's document
  // ---------------------------------------------------------------------

  function RecordOf(user: User?): Option<UserRecord>
    reads user
  {
    if user == null then None else Some(user.Record())
  }

  method BlockUser(callerId: Id, user: User?, blockId: Id, now: int) returns (status: int, message: string)
    modifies user
    ensures var s := BlockSpec(callerId, old(RecordOf(user)), blockId, now);
      status == s.status && message == s.message && RecordOf(user) == s.rec
  {
    if blockId == "" {
      return 400, USER_ID_REQUIRED;
    }
    if callerId == blockId {
      return 400, SELF_BLOCK;
    }
    if user == null {
      return 404, USER_NOT_FOUND;
    }
    if IsBlocked(user.blockedUsers, blockId) {
      return 400, ALREADY_BLOCKED;
    }
    user.BlockUser(blockId, now);
    user.RemoveContact(blockId);
    return 200, USER_BLOCKED;
  }

  method UnblockUser(user: User?, unblockId: Id) returns (status: int, message: string)
    modifies user
    ensures var s := UnblockSpec(old(RecordOf(user)), unblockId);
      status == s.status && message == s.message && RecordOf(user) == s.rec
  {
    if unblockId == "" {
      return 400, USER_ID_REQUIRED;
    }
    if user == null {
      return 404, USER_NOT_FOUND;
    }
    if !IsBlocked(user.blockedUsers, unblockId) {
      return 400, NOT_BLOCKED;
    }
    user.UnblockUser(unblockId);
    return 200, USER_UNBLOCKED;
  }

  method AddContact(user: User, people: seq<UserRecord>, identifier: string, contactName: Option<string>, now: int)
    returns (status: int, message: string)
    modifies user
    ensures var s := AddContactSpec(old(user.Record()), people, identifier, contactName, now);
      status == s.status && message == s.message && Some(user.Record()) == s.rec
  {
    if identifier == "" {
      return 400, IDENTIFIER_REQUIRED;
    }
    var target := FindTarget(people, identifier, user.id);
    if target.None? {
      return 404, TARGET_NOT_FOUND;
    }
    var t := target.value;
    if GetContact(user.contacts, t.id).Some? {
      return 400, CONTACT_EXISTS;
    }
    user.AddContact(t.id, t.phone, Some(t.email), Some(t.name), DisplayNameOr(contactName, Some(t.name)), now);
    return 201, CONTACT_ADDED;
  }

  method RemoveContact(user: User?, contactId: Id) returns (status: int, message: string)
    modifies user
    ensures var s := RemoveSpec(old(RecordOf(user)), contactId);
      status == s.status && message == s.message && RecordOf(user) == s.rec
  {
    if user == null {
      return 404, USER_NOT_FOUND;
    }
    if GetContact(user.contacts, contactId).None? {
      return 404, CONTACT_NOT_FOUND;
    }
    user.RemoveContact(contactId);
    return 200, CONTACT_REMOVED;
  }

  method MarkFavorite(user: User?, contactId: Id, fav: bool) returns (status: int, message: string)
    modifies user
    ensures var s := FavoriteSpec(old(RecordOf(user)), contactId, fav);
      status == s.status && message == s.message && RecordOf(user) == s.rec
  {
    if user == null {
      return 404, USER_NOT_FOUND;
    }
    if GetContact(user.contacts, contactId).None? {
      return 404, CONTACT_NOT_FOUND;
    }
    if fav {
      user.MarkContactAsFavorite(contactId);
      return 200, FAVORITE_MARKED;
    } else {
      user.UnmarkContactAsFavorite(contactId);
      return 200, FAVORITE_UNMARKED;
    }
  }

  method UpdateContactName(user: User?, contactId: Id, contactName: string) returns (status: int, message: string)
    modifies user
    ensures var s := RenameSpec(old(RecordOf(user)), contactId, contactName);
      status == s.status && message == s.message && RecordOf(user) == s.rec
  {
    if contactName == "" {
      return 400, NAME_REQUIRED;
    }
    if user == null {
      return 404, USER_NOT_FOUND;
    }
    var found := FirstContact(user.contacts, contactId);
    if found.None? {
      return 404, CONTACT_NOT_FOUND;
    }
    var i := found.value;
    user.contacts := user.contacts[i := user.contacts[i].(contactName := Some(contactName))];
    return 200, NAME_UPDATED;
  }
}
