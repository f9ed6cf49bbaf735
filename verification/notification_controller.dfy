/**
 * The push-notification controller: the caller's list of device tokens,
 * which registration de-duplicates and caps at the ten newest, which
 * unregistration filters, and which a multicast prunes of the tokens the
 * push service refused.
 *
 * The handlers change the `fcmTokens` field of the caller's `User`
 * document; `null` is a document `findById` did not find. The push
 * service's per-token answers are a parameter.
 */
module NotificationController {
  import opened Common
  import opened UserModel

  const CLEAR_ALL := "CLEAR_ALL"
  const MAX_FCM_TOKENS := 10
  const DEFAULT_PLATFORM := "web"

  const TOKEN_REQUIRED := "Valid FCM token is required"
  const INVALID_PLATFORM := "Invalid platform"
  const USER_NOT_FOUND := "User not found"
  const TOKENS_CLEARED := "All FCM tokens cleared"
  const TOKEN_REGISTERED := "FCM token registered successfully"
  const TOKEN_UNREGISTERED := "FCM token unregistered successfully"

  predicate ValidPlatform(p: string)
  {
    p == "web" || p == "android" || p == "ios"
  }

  /** No two entries carry the same token value. */
  predicate TokensUnique(ts: seq<FcmToken>)
  {
    forall i, j :: 0 <= i < j < |ts| ==> ts[i].token != ts[j].token
  }

  /** `findIndex(t => t.token === token)`. */
  function TokenIndex(ts: seq<FcmToken>, token: string): (r: Option<nat>)
    ensures r.Some? ==> r.value < |ts| && ts[r.value].token == token &&
                        forall k :: 0 <= k < r.value ==> ts[k].token != token
    ensures r.None? ==> forall k :: 0 <= k < |ts| ==> ts[k].token != token
  {
    if ts == [] then None
    else if ts[0].token == token then Some(0)
    else
      match TokenIndex(ts[1..], token)
      case None => None
      case Some(i) => Some(i + 1)
  }

  /**
   * Registering a token that is not in the list appends it and keeps the
   * ten newest entries; registering one that is refreshes its `createdAt`.
   */
  function Registered(ts: seq<FcmToken>, token: string, platform: string, now: int): (r: seq<FcmToken>)
    ensures TokenIndex(r, token).Some?
    ensures TokenIndex(ts, token).None? ==>
      |r| == (if |ts| + 1 > MAX_FCM_TOKENS then MAX_FCM_TOKENS else |ts| + 1) &&
      r[|r| - 1] == FcmToken(token, platform, now) &&
      r[..|r| - 1] == ts[|ts| - (|r| - 1)..]
    ensures TokenIndex(ts, token).Some? ==>
      var i := TokenIndex(ts, token).value;
      |r| == |ts| && r[i] == ts[i].(createdAt := now) &&
      forall k :: 0 <= k < |ts| && k != i ==> r[k] == ts[k]
  {
    match TokenIndex(ts, token)
    case None =>
      var r := LastN(ts + [FcmToken(token, platform, now)], MAX_FCM_TOKENS);
      assert r[|r| - 1].token == token;
      r
    case Some(i) =>
      var r := ts[i := ts[i].(createdAt := now)];
      assert r[i].token == token;
      r
  }

  /** Registration alone never puts two entries with the same token in the list. */
  lemma RegisterKeepsTokensUnique(ts: seq<FcmToken>, token: string, platform: string, now: int)
    requires TokensUnique(ts)
    ensures TokensUnique(Registered(ts, token, platform, now))
  {
    var r := Registered(ts, token, platform, now);
    if TokenIndex(ts, token).None? {
      var n := |r| - 1;
      var off := |ts| - n;
      forall i, j | 0 <= i < j < |r| ensures r[i].token != r[j].token {
        assert r[i] == ts[off + i];
        if j < n {
          assert r[j] == ts[off + j];
        }
      }
    }
  }

  /** A list that is within the cap stays within it. */
  lemma RegisterKeepsCap(ts: seq<FcmToken>, token: string, platform: string, now: int)
    requires |ts| <= MAX_FCM_TOKENS
    ensures |Registered(ts, token, platform, now)| <= MAX_FCM_TOKENS
  {
  }

  /** Registering the same token again only refreshes its timestamp. */
  lemma ReRegisterRefreshes(ts: seq<FcmToken>, token: string, platform: string, t1: int, t2: int)
    ensures var once := Registered(ts, token, platform, t1);
      var twice := Registered(once, token, platform, t2);
      |twice| == |once| &&
      forall k :: 0 <= k < |once| ==> twice[k] == once[k] || (once[k].token == token && twice[k] == once[k].(createdAt := t2))
  {
  }

  /** A handler's answer, the token count it reports, and the document afterwards. */
  datatype TokenStep = TokenStep(status: int, message: string, count: Option<nat>, rec: Option<UserRecord>)

  /** `!fcmToken || typeof fcmToken !== 'string'`: `None` stands for a missing or non-string value. */
  predicate TokenGiven(fcmToken: Option<string>)
  {
    fcmToken.Some? && fcmToken.value != ""
  }

  /** `registerFCMToken`: token, then platform (default `'web'`), then the document. */
  function RegisterSpec(rec: Option<UserRecord>, fcmToken: Option<string>, platform: Option<string>, now: int): (r: TokenStep)
    ensures !TokenGiven(fcmToken) ==> r.status == 400 && r.message == TOKEN_REQUIRED
    ensures r.status == 200 <==>
      TokenGiven(fcmToken) && ValidPlatform(ParsePlatform(platform)) && rec.Some?
    ensures r.status != 200 ==> r.rec == rec
    ensures r.status == 200 && fcmToken.value == CLEAR_ALL ==> r.rec == Some(rec.value.(fcmTokens := []))
    ensures r.status == 200 && fcmToken.value != CLEAR_ALL ==>
      var ts := Registered(rec.value.fcmTokens, fcmToken.value, ParsePlatform(platform), now);
      r.rec == Some(rec.value.(fcmTokens := ts)) && r.count == Some(|ts|)
  {
    if !TokenGiven(fcmToken) then TokenStep(400, TOKEN_REQUIRED, None, rec)
    else if !ValidPlatform(ParsePlatform(platform)) then TokenStep(400, INVALID_PLATFORM, None, rec)
    else if rec.None? then TokenStep(404, USER_NOT_FOUND, None, rec)
    else if fcmToken.value == CLEAR_ALL then TokenStep(200, TOKENS_CLEARED, None, Some(rec.value.(fcmTokens := [])))
    else
      var ts := Registered(rec.value.fcmTokens, fcmToken.value, ParsePlatform(platform), now);
      TokenStep(200, TOKEN_REGISTERED, Some(|ts|), Some(rec.value.(fcmTokens := ts)))
  }

  /** `platform = 'web'`: a missing platform is a valid one, a given one is taken as it is. */
  function ParsePlatform(platform: Option<string>): (r: string)
    ensures ValidPlatform(r) <==> platform.None? || ValidPlatform(platform.value)
    ensures platform.Some? ==> r == platform.value
  {
    if platform.None? then DEFAULT_PLATFORM else platform.value
  }

  /** `filter(t => t.token !== token)`. */
  predicate OtherToken(token: string, t: FcmToken)
  {
    t.token != token
  }

  function Unregistered(ts: seq<FcmToken>, token: string): (r: seq<FcmToken>)
    ensures forall i :: 0 <= i < |r| ==> r[i].token != token && r[i] in ts
    ensures forall k :: 0 <= k < |ts| && ts[k].token != token ==> ts[k] in r
  {
    Filter(ts, t => OtherToken(token, t))
  }

  /** The number of entries carrying a token. */
  function Occurrences(ts: seq<FcmToken>, token: string): (n: nat)
    ensures n <= |ts|
  {
    if ts == [] then 0
    else Occurrences(ts[..|ts| - 1], token) + (if ts[|ts| - 1].token == token then 1 else 0)
  }

  /** `removedCount` is the number of entries that carried the token. */
  lemma {:induction false} RemovedCountIsOccurrences(ts: seq<FcmToken>, token: string)
    ensures |ts| - |Unregistered(ts, token)| == Occurrences(ts, token)
  {
    if ts != [] {
      var init := ts[..|ts| - 1];
      assert ts == init + [ts[|ts| - 1]];
      RemovedCountIsOccurrences(init, token);
    }
  }

  /** Unregistering works entry by entry, so the surviving entries keep their order. */
  lemma UnregisterKeepsOrder(a: seq<FcmToken>, b: seq<FcmToken>, token: string)
    ensures Unregistered(a + b, token) == Unregistered(a, token) + Unregistered(b, token)
  {
    FilterAppend(a, b, t => OtherToken(token, t));
  }

  /** Unregistering a token that is not there changes nothing and removes nothing. */
  lemma UnregisterAbsentIsNoop(ts: seq<FcmToken>, token: string)
    requires TokenIndex(ts, token).None?
    ensures Unregistered(ts, token) == ts
  {
    FilterAll(ts, t => OtherToken(token, t));
  }

  /** Unregistering right after registering a new token restores the surviving list. */
  lemma UnregisterUndoesRegister(ts: seq<FcmToken>, token: string, platform: string, now: int)
    requires TokenIndex(ts, token).None? && |ts| < MAX_FCM_TOKENS
    ensures Unregistered(Registered(ts, token, platform, now), token) == ts
  {
    assert Registered(ts, token, platform, now) == ts + [FcmToken(token, platform, now)];
    UnregisterKeepsOrder(ts, [FcmToken(token, platform, now)], token);
    UnregisterAbsentIsNoop(ts, token);
    assert Unregistered([FcmToken(token, platform, now)], token) == [];
  }

  /** `unregisterFCMToken`: the answer carries `removedCount` and the remaining count. */
  datatype UnregisterStep = UnregisterStep(status: int, message: string, removed: Option<int>,
                                           remaining: Option<nat>, rec: Option<UserRecord>)

  function UnregisterSpec(rec: Option<UserRecord>, fcmToken: Option<string>): (r: UnregisterStep)
    ensures r.status == 200 <==> TokenGiven(fcmToken) && rec.Some?
    ensures r.status != 200 ==> r.rec == rec && r.removed.None?
    ensures r.status == 200 ==>
      var ts := Unregistered(rec.value.fcmTokens, fcmToken.value);
      r.rec == Some(rec.value.(fcmTokens := ts)) && r.remaining == Some(|ts|) &&
      r.removed == Some(Occurrences(rec.value.fcmTokens, fcmToken.value))
  {
    if !TokenGiven(fcmToken) then UnregisterStep(400, TOKEN_REQUIRED, None, None, rec)
    else if rec.None? then UnregisterStep(404, USER_NOT_FOUND, None, None, rec)
    else
      var before := rec.value.fcmTokens;
      var ts := Unregistered(before, fcmToken.value);
      RemovedCountIsOccurrences(before, fcmToken.value);
      UnregisterStep(200, TOKEN_UNREGISTERED, Some(|before| - |ts|), Some(|ts|), Some(rec.value.(fcmTokens := ts)))
  }

  // ---------------------------------------------------------------------
  // Pruning after a multicast
  // ---------------------------------------------------------------------

  /**
   * The tokens at the indexes the push service answered with a failure,
   * in index order. An answer past the end of the token list names no token.
   */
  function FailedTokens(ts: seq<FcmToken>, ok: seq<bool>, n: nat): (r: seq<string>)
    requires n <= |ok|
    ensures |r| <= n && |r| <= |ts|
    ensures (forall i :: 0 <= i < n ==> ok[i]) ==> r == []
  {
    if n == 0 then []
    else FailedTokens(ts, ok, n - 1) + (if !ok[n - 1] && n - 1 < |ts| then [ts[n - 1].token] else [])
  }

  lemma {:induction false} FailedTokensExactly(ts: seq<FcmToken>, ok: seq<bool>, n: nat, s: string)
    requires n <= |ok|
    ensures s in FailedTokens(ts, ok, n) <==>
      exists idx :: 0 <= idx < n && idx < |ts| && !ok[idx] && ts[idx].token == s
  {
    if n > 0 {
      FailedTokensExactly(ts, ok, n - 1, s);
      var prev := FailedTokens(ts, ok, n - 1);
      var last := if !ok[n - 1] && n - 1 < |ts| then [ts[n - 1].token] else [];
      assert FailedTokens(ts, ok, n) == prev + last;
      assert s in prev + last <==> s in prev || s in last;
      if s in last {
        assert 0 <= n - 1 < n && n - 1 < |ts| && !ok[n - 1] && ts[n - 1].token == s;
      } else if exists idx :: 0 <= idx < n && idx < |ts| && !ok[idx] && ts[idx].token == s {
        var idx :| 0 <= idx < n && idx < |ts| && !ok[idx] && ts[idx].token == s;
        assert idx != n - 1;
      }
    }
  }

  function FailureCount(ok: seq<bool>): (n: nat)
    ensures n <= |ok|
    ensures n == 0 <==> forall i :: 0 <= i < |ok| ==> ok[i]
  {
    if ok == [] then 0 else FailureCount(ok[1..]) + (if ok[0] then 0 else 1)
  }

  predicate NotFailed(failed: seq<string>, t: FcmToken)
  {
    t.token !in failed
  }

  /** The list after the prune: every entry whose token failed is gone. */
  function Pruned(ts: seq<FcmToken>, ok: seq<bool>): (r: seq<FcmToken>)
    ensures |r| <= |ts|
    ensures multiset(r) <= multiset(ts)
    ensures forall i :: 0 <= i < |r| ==> r[i] in ts
  {
    if |ts| == 0 || FailureCount(ok) == 0 then ts
    else
      var failed := FailedTokens(ts, ok, |ok|);
      if |failed| == 0 then ts else Filter(ts, t => NotFailed(failed, t))
  }

  /** An entry survives the prune exactly when no failed index carries its token. */
  lemma PrunedExactly(ts: seq<FcmToken>, ok: seq<bool>, k: nat)
    requires k < |ts|
    ensures ts[k] in Pruned(ts, ok) <==>
      !exists idx :: 0 <= idx < |ok| && idx < |ts| && !ok[idx] && ts[idx].token == ts[k].token
  {
    FailedTokensExactly(ts, ok, |ok|, ts[k].token);
    var failed := FailedTokens(ts, ok, |ok|);
    if FailureCount(ok) > 0 && |failed| > 0 && ts[k].token in failed {
      var r := Pruned(ts, ok);
      assert forall i :: 0 <= i < |r| ==> r[i].token !in failed;
    }
  }

  /** When every send succeeds the list is left as it was. */
  lemma AllDeliveredKeepsTokens(ts: seq<FcmToken>, ok: seq<bool>)
    requires forall i :: 0 <= i < |ok| ==> ok[i]
    ensures Pruned(ts, ok) == ts
  {
  }

  /** The `forEach` over the answers that collects the token of every failed send. */
  method CollectFailed(tokens: seq<FcmToken>, ok: seq<bool>) returns (invalid: seq<string>)
    ensures forall s :: s in invalid <==>
      exists idx :: 0 <= idx < |ok| && idx < |tokens| && !ok[idx] && tokens[idx].token == s
    ensures invalid == FailedTokens(tokens, ok, |ok|)
  {
    invalid := [];
    var idx := 0;
    while idx < |ok|
      invariant 0 <= idx <= |ok|
      invariant invalid == FailedTokens(tokens, ok, idx)
    {
      if !ok[idx] && idx < |tokens| {
        invalid := invalid + [tokens[idx].token];
      }
      idx := idx + 1;
    }
    forall s {
      FailedTokensExactly(tokens, ok, |ok|, s);
    }
  }

  /**
   * `sendNotificationToUser`'s bookkeeping: nothing happens without a
   * configured push service, a found document or a registered token;
   * otherwise the failed tokens are collected index by index and filtered
   * out. `sent` says whether the multicast went out.
   */
  method SendNotificationToUser(configured: bool, user: User?, ok: seq<bool>) returns (sent: bool)
    modifies user
    ensures sent <==> configured && user != null && |old(user.fcmTokens)| > 0
    ensures user != null ==>
      user.Record() == old(user.Record()).(fcmTokens := if sent then Pruned(old(user.fcmTokens), ok) else old(user.fcmTokens))
  {
    if !configured || user == null || |user.fcmTokens| == 0 {
      return false;
    }
    var tokens := user.fcmTokens;
    if FailureCount(ok) > 0 {
      var invalid := CollectFailed(tokens, ok);
      if |invalid| > 0 {
        user.fcmTokens := Filter(user.fcmTokens, t => NotFailed(invalid, t));
      }
    }
    return true;
  }

  // ---------------------------------------------------------------------
  // The handlers on the caller's document
  // ---------------------------------------------------------------------

  function RecordOf(user: User?): Option<UserRecord>
    reads user
  {
    if user == null then None else Some(user.Record())
  }

  /** The list update of `registerFCMToken` for a real token: refresh or append and cap. */
  method StoreToken(user: User, token: string, platform: string, now: int)
    modifies user
    ensures user.Record() == old(user.Record()).(fcmTokens := Registered(old(user.fcmTokens), token, platform, now))
  {
    var ts := user.fcmTokens;
    var existing := TokenIndex(ts, token);
    if existing.None? {
      ts := ts + [FcmToken(token, platform, now)];
      if |ts| > MAX_FCM_TOKENS {
        ts := ts[|ts| - MAX_FCM_TOKENS..];
      }
    } else {
      var i := existing.value;
      ts := ts[i := ts[i].(createdAt := now)];
    }
    user.fcmTokens := ts;
  }

  method RegisterFcmToken(user: User?, fcmToken: Option<string>, platform: Option<string>, now: int)
    returns (status: int, message: string, count: Option<nat>)
    modifies user
    ensures var s := RegisterSpec(old(RecordOf(user)), fcmToken, platform, now);
      status == s.status && message == s.message && count == s.count && RecordOf(user) == s.rec
  {
    if fcmToken.None? || fcmToken.value == "" {
      return 400, TOKEN_REQUIRED, None;
    }
    var p := if platform.None? then DEFAULT_PLATFORM else platform.value;
    if !(p == "web" || p == "android" || p == "ios") {
      return 400, INVALID_PLATFORM, None;
    }
    if user == null {
      return 404, USER_NOT_FOUND, None;
    }
    var token := fcmToken.value;
    if token == CLEAR_ALL {
      user.fcmTokens := [];
      return 200, TOKENS_CLEARED, None;
    }
    StoreToken(user, token, p, now);
    return 200, TOKEN_REGISTERED, Some(|user.fcmTokens|);
  }

  method UnregisterFcmToken(user: User?, fcmToken: Option<string>)
    returns (status: int, message: string, removed: Option<int>, remaining: Option<nat>)
    modifies user
    ensures var s := UnregisterSpec(old(RecordOf(user)), fcmToken);
      status == s.status && message == s.message && removed == s.removed && remaining == s.remaining &&
      RecordOf(user) == s.rec
  {
    if fcmToken.None? || fcmToken.value == "" {
      return 400, TOKEN_REQUIRED, None, None;
    }
    if user == null {
      return 404, USER_NOT_FOUND, None, None;
    }
    var initial := |user.fcmTokens|;
    user.fcmTokens := Filter(user.fcmTokens, t => OtherToken(fcmToken.value, t));
    return 200, TOKEN_UNREGISTERED, Some(initial - |user.fcmTokens|), Some(|user.fcmTokens|);
  }
}
