/**
 * Media-storage helpers: recovering a public id from a delivery URL,
 * choosing the resource type, the upload retry schedule, batch deletion
 * bookkeeping and the mapping of storage errors to HTTP statuses.
 */
module Cloudinary {
  import opened Common

  const MAX_ATTEMPTS := 3
  const INITIAL_DELAY := 1000
  const MAX_DELAY := 10000
  const BACKOFF_MULTIPLIER := 2

  // ---------------------------------------------------------------------
  // Public id extraction: /\/(image|video|raw)\/upload\/(?:v\d+\/)?(.*?)(?:\?|$)/
  // ---------------------------------------------------------------------

  const IMAGE_SEGMENT := "/image/upload/"
  const VIDEO_SEGMENT := "/video/upload/"
  const RAW_SEGMENT := "/raw/upload/"

  /** The length of the upload segment starting at `p`, if one starts there. */
  function UploadSegmentAt(s: string, p: nat): (r: Option<nat>)
    ensures r.Some? ==> 0 < r.value && p + r.value <= |s|
    ensures r.Some? <==> (OccursAt(s, IMAGE_SEGMENT, p) || OccursAt(s, VIDEO_SEGMENT, p) ||
      OccursAt(s, RAW_SEGMENT, p))
  {
    if OccursAt(s, IMAGE_SEGMENT, p) then Some(|IMAGE_SEGMENT|)
    else if OccursAt(s, VIDEO_SEGMENT, p) then Some(|VIDEO_SEGMENT|)
    else if OccursAt(s, RAW_SEGMENT, p) then Some(|RAW_SEGMENT|)
    else None
  }

  function DigitRunEnd(s: string, j: nat): (e: nat)
    requires j <= |s|
    ensures j <= e <= |s|
    ensures forall i :: j <= i < e ==> IsDigit(s[i])
    ensures e < |s| ==> !IsDigit(s[e])
    decreases |s| - j
  {
    if j < |s| && IsDigit(s[j]) then DigitRunEnd(s, j + 1) else j
  }

  /** Where the optional `v\d+/` group ends when it is present at `q`. */
  function VersionEnd(s: string, q: nat): (r: Option<nat>)
    requires q <= |s|
    ensures r.Some? ==> (q + 3 <= r.value <= |s| && s[q] == 'v' && s[r.value - 1] == '/' &&
      forall i :: q + 1 <= i < r.value - 1 ==> IsDigit(s[i]))
    ensures q < |s| && s[q] != 'v' ==> r.None?
  {
    if q < |s| && s[q] == 'v' then
      var e := DigitRunEnd(s, q + 1);
      if e > q + 1 && e < |s| && s[e] == '/' then Some(e + 1) else None
    else None
  }

  /**
   * The lazy `(.*?)` followed by `\?` or the end of the input: it stops at the
   * first '?' or at the end, and fails when a line terminator comes first.
   */
  function LazyStop(s: string, q: nat): (r: Option<nat>)
    requires q <= |s|
    ensures r.Some? ==> (q <= r.value <= |s| && (r.value == |s| || s[r.value] == '?') &&
      forall i :: q <= i < r.value ==> s[i] != '?' && !IsLineTerminator(s[i]))
    ensures (forall i :: q <= i < |s| ==> !IsLineTerminator(s[i])) ==> r.Some?
    decreases |s| - q
  {
    if q == |s| || s[q] == '?' then Some(q)
    else if IsLineTerminator(s[q]) then None
    else LazyStop(s, q + 1)
  }

  /** The captured group of a match starting at `p`, trying the version group first. */
  function MatchAt(s: string, p: nat): (r: Option<string>)
    requires p <= |s|
    ensures UploadSegmentAt(s, p).None? ==> r.None?
  {
    match UploadSegmentAt(s, p)
    case None => None
    case Some(n) =>
      var q := p + n;
      var withVersion :=
        match VersionEnd(s, q)
        case None => None
        case Some(q2) =>
          (match LazyStop(s, q2)
           case None => None
           case Some(k) => Some(s[q2..k]));
      if withVersion.Some? then withVersion
      else
        match LazyStop(s, q)
        case None => None
        case Some(k) => Some(s[q..k])
  }

  /** `String.prototype.match`: the leftmost start position that matches. */
  function FirstMatch(s: string, p: nat): (r: Option<string>)
    requires p <= |s|
    decreases |s| - p
  {
    if MatchAt(s, p).Some? then MatchAt(s, p)
    else if p == |s| then None
    else FirstMatch(s, p + 1)
  }

  function LastDot(s: string): (r: Option<nat>)
    ensures r.Some? ==> (r.value < |s| && s[r.value] == '.' &&
      forall j :: r.value < j < |s| ==> s[j] != '.')
    ensures r.None? ==> forall j :: 0 <= j < |s| ==> s[j] != '.'
  {
    if s == [] then None
    else if s[|s| - 1] == '.' then Some(|s| - 1)
    else LastDot(s[..|s| - 1])
  }

  /** `id.replace(/\.[^.]+$/, '')`: drop a final extension that has at least one character. */
  function StripExtension(id: string): (r: string)
    ensures r == id || (|r| < |id| && r == id[..|r|] && id[|r|] == '.')
  {
    match LastDot(id)
    case Some(i) => if i < |id| - 1 then id[..i] else id
    case None => id
  }

  /** extractPublicIdFromUrl: null for an empty url, a failed match or an empty capture. */
  function ExtractPublicIdFromUrl(url: string): (r: Option<string>)
    ensures url == "" ==> r.None?
  {
    if url == "" then None
    else
      match FirstMatch(url, 0)
      case None => None
      case Some(g) => if g == "" then None else Some(StripExtension(g))
  }

  lemma {:induction false} FirstMatchSkips(s: string, p: nat, target: nat)
    requires p <= target <= |s|
    requires forall i :: p <= i < target ==> UploadSegmentAt(s, i).None?
    ensures FirstMatch(s, p) == FirstMatch(s, target)
    decreases target - p
  {
    if p < target {
      FirstMatchSkips(s, p + 1, target);
    }
  }

  /** A URL without any upload segment yields no public id. */
  lemma NoSegmentNoPublicId(url: string)
    requires forall p :: 0 <= p <= |url| ==> UploadSegmentAt(url, p).None?
    ensures ExtractPublicIdFromUrl(url).None?
  {
    if url != "" {
      FirstMatchSkips(url, 0, |url|);
    }
  }

  lemma StripFinalExtension(base: string, ext: string)
    requires ext != "" && forall j :: 0 <= j < |ext| ==> ext[j] != '.'
    ensures StripExtension(base + "." + ext) == base
  {
    var s := base + "." + ext;
    assert s[|base|] == '.';
    assert forall j :: |base| < j < |s| ==> s[j] == ext[j - |base| - 1];
    var i := LastDot(s).value;
    assert i == |base|;
    assert s[..i] == base;
  }

  lemma StripWithoutDot(s: string)
    requires forall j :: 0 <= j < |s| ==> s[j] != '.'
    ensures StripExtension(s) == s
  {
  }

  predicate IsVersionSegment(v: string)
  {
    |v| >= 3 && v[0] == 'v' && v[|v| - 1] == '/' && forall i :: 1 <= i < |v| - 1 ==> IsDigit(v[i])
  }

  predicate PlainText(s: string)
  {
    forall i :: 0 <= i < |s| ==> s[i] != '?' && s[i] != '/' && s[i] != '.' && !IsLineTerminator(s[i])
  }

  /**
   * A delivery URL `host/<kind>/upload/[v<digits>/]<id>.<ext>[?query]` yields
   * `id`: the version folder is skipped, the query is cut off, and only the
   * final extension is removed.
   */
  lemma ExtractFromDeliveryUrl(url: string, host: string, segment: string, version: string,
                               id: string, ext: string, query: string)
    requires segment == IMAGE_SEGMENT || segment == VIDEO_SEGMENT || segment == RAW_SEGMENT
    requires version == "" || IsVersionSegment(version)
    requires id != "" && forall i :: 0 <= i < |id| ==> id[i] != '?' && id[i] != '/' && !IsLineTerminator(id[i])
    requires ext != "" && PlainText(ext)
    requires query == "" || query[0] == '?'
    requires url == host + segment + version + id + "." + ext + query
    requires forall p :: 0 <= p < |host| ==> UploadSegmentAt(url, p).None?
    ensures ExtractPublicIdFromUrl(url) == Some(id)
  {
    var body := id + "." + ext;
    var rest := version + body + query;
    RegroupDeliveryUrl(host, segment, version, id, ext, query);
    var p := |host|;
    SplitAround(url, host, segment, rest);
    FirstMatchSkips(url, 0, p);
    SegmentAtStart(url, p, segment);
    BodyStopsNowhere(id, ext);
    MatchAfterSegment(url, p, |segment|, version, body, query);
    StripFinalExtension(id, ext);
  }

  lemma RegroupDeliveryUrl(host: string, segment: string, version: string, id: string, ext: string, query: string)
    ensures host + segment + version + id + "." + ext + query ==
            host + segment + (version + (id + "." + ext) + query)
  {
    var body := id + "." + ext;
    calc {
      host + segment + version + id + "." + ext + query;
      host + segment + version + (id + "." + ext) + query;
      host + segment + (version + body + query);
    }
  }

  lemma SplitAround(url: string, host: string, segment: string, rest: string)
    requires url == host + segment + rest
    ensures url[|host|..|host| + |segment|] == segment
    ensures url[|host| + |segment|..] == rest
  {
  }

  lemma BodyStopsNowhere(id: string, ext: string)
    requires forall i :: 0 <= i < |id| ==> id[i] != '?' && id[i] != '/' && !IsLineTerminator(id[i])
    requires PlainText(ext)
    ensures var body := id + "." + ext;
      forall i :: 0 <= i < |body| ==> body[i] != '?' && body[i] != '/' && !IsLineTerminator(body[i])
  {
    var body := id + "." + ext;
    forall i | 0 <= i < |body|
      ensures body[i] != '?' && body[i] != '/' && !IsLineTerminator(body[i])
    {
      if i > |id| {
        assert body[i] == ext[i - |id| - 1];
      }
    }
  }

  lemma MatchAfterSegment(url: string, p: nat, n: nat, version: string, body: string, query: string)
    requires p + n <= |url| && UploadSegmentAt(url, p) == Some(n)
    requires url[p + n..] == version + body + query
    requires version == "" || IsVersionSegment(version)
    requires body != [] && forall i :: 0 <= i < |body| ==> body[i] != '?' && body[i] != '/' && !IsLineTerminator(body[i])
    requires query == "" || query[0] == '?'
    ensures FirstMatch(url, p) == Some(body)
  {
    var q := p + n;
    var start := q + |version|;
    var stop := start + |body|;
    BodyFacts(url, q, version, body, query);
    assert url[start..stop] == body;
    LazyStopRun(url, start, stop);
    if version == "" {
      NoVersionHere(url, q, stop);
      MatchWithoutVersion(url, p, n, stop);
    } else {
      assert url[q..q + |version|] == (version + body + query)[..|version|] == version;
      VersionFacts(url, q, version);
      MatchWithVersion(url, p, n, start, stop);
    }
    FirstMatchAtMatch(url, p);
  }

  lemma FirstMatchAtMatch(s: string, p: nat)
    requires p <= |s| && MatchAt(s, p).Some?
    ensures FirstMatch(s, p) == MatchAt(s, p)
  {
  }

  lemma SegmentAtStart(url: string, p: nat, segment: string)
    requires segment == IMAGE_SEGMENT || segment == VIDEO_SEGMENT || segment == RAW_SEGMENT
    requires OccursAt(url, segment, p)
    ensures UploadSegmentAt(url, p) == Some(|segment|)
  {
    assert url[p + 1] == url[p..p + |segment|][1] == segment[1];
    if OccursAt(url, IMAGE_SEGMENT, p) {
      assert url[p + 1] == url[p..p + |IMAGE_SEGMENT|][1] == 'i';
    }
    if OccursAt(url, VIDEO_SEGMENT, p) {
      assert url[p + 1] == url[p..p + |VIDEO_SEGMENT|][1] == 'v';
    }
  }

  lemma MatchWithVersion(url: string, p: nat, n: nat, start: nat, stop: nat)
    requires p + n <= |url| && UploadSegmentAt(url, p) == Some(n)
    requires VersionEnd(url, p + n) == Some(start)
    requires start <= |url| && LazyStop(url, start) == Some(stop)
    ensures MatchAt(url, p) == Some(url[start..stop])
  {
  }

  lemma MatchWithoutVersion(url: string, p: nat, n: nat, stop: nat)
    requires p + n <= |url| && UploadSegmentAt(url, p) == Some(n)
    requires VersionEnd(url, p + n).None?
    requires LazyStop(url, p + n) == Some(stop)
    ensures MatchAt(url, p) == Some(url[p + n..stop])
  {
  }

  lemma BodyFacts(url: string, q: nat, version: string, body: string, query: string)
    requires q <= |url| && url[q..] == version + body + query
    requires forall i :: 0 <= i < |body| ==> body[i] != '?' && body[i] != '/' && !IsLineTerminator(body[i])
    requires query == "" || query[0] == '?'
    ensures q + |version| + |body| <= |url|
    ensures url[q + |version|..q + |version| + |body|] == body
    ensures q + |version| + |body| == |url| || url[q + |version| + |body|] == '?'
    ensures forall i :: q + |version| <= i < q + |version| + |body| ==>
      url[i] != '?' && url[i] != '/' && !IsLineTerminator(url[i])
  {
    var start := q + |version|;
    var stop := start + |body|;
    var rest := url[q..];
    assert rest[|version|..|version| + |body|] == body;
    assert forall i :: start <= i < stop ==> url[i] == rest[i - q] == body[i - start];
    if stop < |url| {
      assert url[stop] == rest[stop - q] == query[0];
    }
  }

  lemma VersionFacts(url: string, q: nat, version: string)
    requires IsVersionSegment(version)
    requires q + |version| <= |url| && url[q..q + |version|] == version
    ensures VersionEnd(url, q) == Some(q + |version|)
  {
    var start := q + |version|;
    forall i | q + 1 <= i < start - 1
      ensures IsDigit(url[i])
    {
      assert url[i] == version[i - q];
    }
    assert url[start - 1] == version[|version| - 1];
    DigitRunEndAt(url, q + 1, start - 1);
  }

  lemma {:induction false} DigitRunEndAt(s: string, j: nat, e: nat)
    requires j <= e <= |s|
    requires forall i :: j <= i < e ==> IsDigit(s[i])
    requires e == |s| || !IsDigit(s[e])
    ensures DigitRunEnd(s, j) == e
    decreases e - j
  {
    if j < e {
      DigitRunEndAt(s, j + 1, e);
    }
  }

  /** No `v<digits>/` group can start at `q` when no '/' occurs before the stop. */
  lemma NoVersionHere(s: string, q: nat, stop: nat)
    requires q < stop <= |s|
    requires forall i :: q <= i < stop ==> s[i] != '/'
    requires stop == |s| || s[stop] == '?'
    ensures VersionEnd(s, q).None?
  {
    if s[q] == 'v' {
      var e := DigitRunEnd(s, q + 1);
      assert stop == |s| || !IsDigit(s[stop]);
      assert e <= stop;
      assert e == |s| || s[e] != '/';
    }
  }

  lemma {:induction false} LazyStopRun(s: string, q: nat, stop: nat)
    requires q <= stop <= |s|
    requires forall i :: q <= i < stop ==> s[i] != '?' && !IsLineTerminator(s[i])
    requires stop == |s| || s[stop] == '?'
    ensures LazyStop(s, q) == Some(stop)
    decreases stop - q
  {
    if q < stop {
      LazyStopRun(s, q + 1, stop);
    }
  }

  // ---------------------------------------------------------------------
  // Resource type
  // ---------------------------------------------------------------------

  datatype ResourceType = Image | Video | Raw

  /** `/video/` anywhere wins, then `/raw/`, otherwise an image. */
  function ResourceTypeOf(url: string): (r: ResourceType)
    ensures r == Video <==> Contains(url, "/video/")
    ensures r == Raw <==> !Contains(url, "/video/") && Contains(url, "/raw/")
  {
    if Contains(url, "/video/") then Video
    else if Contains(url, "/raw/") then Raw
    else Image
  }

  /**
   * The resource type agrees with a matched video segment; a raw segment
   * gives raw unless `/video/` also occurs somewhere in the URL.
   */
  lemma ResourceTypeFollowsSegment(url: string, p: nat)
    requires p <= |url|
    ensures OccursAt(url, VIDEO_SEGMENT, p) ==> ResourceTypeOf(url) == Video
    ensures OccursAt(url, RAW_SEGMENT, p) && !Contains(url, "/video/") ==> ResourceTypeOf(url) == Raw
  {
    if OccursAt(url, VIDEO_SEGMENT, p) {
      assert url[p..p + 7] == VIDEO_SEGMENT[..7];
      assert OccursAt(url, "/video/", p);
    }
    if OccursAt(url, RAW_SEGMENT, p) {
      assert url[p..p + 5] == RAW_SEGMENT[..5];
      assert OccursAt(url, "/raw/", p);
    }
  }

  // ---------------------------------------------------------------------
  // Upload retry schedule
  // ---------------------------------------------------------------------

  function Pow2(k: nat): (r: nat)
    ensures r >= 1
  {
    if k == 0 then 1 else 2 * Pow2(k - 1)
  }

  /**
   * The delay before the next attempt, `min(1000 * 2^(attempts-1), 10000)`;
   * with attempts = 0 the power is 2^-1 and the delay is 500.
   */
  function BackoffDelay(attempts: nat): (d: nat)
    ensures d <= MAX_DELAY
    ensures attempts == 1 ==> d == 1000
    ensures attempts == 2 ==> d == 2000
    ensures attempts == 0 ==> d == 500
  {
    if attempts == 0 then INITIAL_DELAY / 2
    else
      var raw := INITIAL_DELAY * Pow2(attempts - 1);
      if raw < MAX_DELAY then raw else MAX_DELAY
  }

  lemma {:induction false} Pow2Monotone(a: nat, b: nat)
    requires a <= b
    ensures Pow2(a) <= Pow2(b)
    decreases b
  {
    if a < b {
      Pow2Monotone(a, b - 1);
    }
  }

  /** Later attempts never wait less. */
  lemma BackoffMonotone(a: nat, b: nat)
    requires a <= b
    ensures BackoffDelay(a) <= BackoffDelay(b)
  {
    if 1 <= a {
      Pow2Monotone(a - 1, b - 1);
    }
  }

  datatype UploadOutcome = Uploaded(attempt: nat) | GaveUp | StillRetrying

  /** Whether the storage service accepts the upload on attempt number `k + 1`. */
  predicate RemoteAccepts(remote: seq<bool>, k: nat)
  {
    k < |remote| && remote[k]
  }

  /**
   * performUpload as written: a missing file throws before the attempt is
   * counted. `budget` bounds how many calls are observed; the outcome is
   * StillRetrying when the budget runs out first.
   */
  method PerformUploadAsWritten(fileExists: bool, remote: seq<bool>, budget: nat)
    returns (calls: nat, attempts: nat, delays: seq<nat>, outcome: UploadOutcome)
    ensures !fileExists ==> (outcome == StillRetrying && calls == budget && attempts == 0 &&
      delays == seq(budget, _ => 500))
    ensures fileExists ==> calls == attempts <= MAX_ATTEMPTS
    ensures fileExists && budget >= MAX_ATTEMPTS ==> outcome != StillRetrying
    ensures outcome.Uploaded? ==> (attempts >= 1 && outcome.attempt == attempts &&
      RemoteAccepts(remote, attempts - 1) && forall k :: 0 <= k < attempts - 1 ==> !RemoteAccepts(remote, k))
    ensures outcome == GaveUp ==> (attempts == MAX_ATTEMPTS &&
      forall k :: 0 <= k < MAX_ATTEMPTS ==> !RemoteAccepts(remote, k))
    ensures fileExists ==> forall i :: 0 <= i < |delays| ==> delays[i] == BackoffDelay(i + 1)
  {
    calls, attempts, delays, outcome := 0, 0, [], StillRetrying;
    while calls < budget
      invariant calls <= budget
      invariant !fileExists ==> attempts == 0 && delays == seq(calls, _ => 500)
      invariant fileExists ==> calls == attempts < MAX_ATTEMPTS
      invariant fileExists ==> (|delays| == attempts &&
        forall i :: 0 <= i < |delays| ==> delays[i] == BackoffDelay(i + 1))
      invariant forall k :: 0 <= k < attempts ==> !RemoteAccepts(remote, k)
      decreases budget - calls
    {
      calls := calls + 1;
      if fileExists {
        attempts := attempts + 1;
        if RemoteAccepts(remote, attempts - 1) {
          outcome := Uploaded(attempts);
          return;
        }
      }
      if attempts < MAX_ATTEMPTS {
        delays := delays + [BackoffDelay(attempts)];
      } else {
        outcome := GaveUp;
        return;
      }
    }
  }

  /** performUpload with the existence check counted as an attempt. */
  method PerformUpload(fileExists: bool, remote: seq<bool>, budget: nat)
    returns (calls: nat, attempts: nat, delays: seq<nat>, outcome: UploadOutcome)
    ensures calls == attempts <= MAX_ATTEMPTS
    ensures budget >= MAX_ATTEMPTS ==> outcome != StillRetrying
    ensures !fileExists && budget >= MAX_ATTEMPTS ==> outcome == GaveUp && delays == [1000, 2000]
    ensures outcome.Uploaded? ==> (fileExists && attempts >= 1 && outcome.attempt == attempts &&
      RemoteAccepts(remote, attempts - 1) && forall k :: 0 <= k < attempts - 1 ==> !RemoteAccepts(remote, k))
    ensures outcome == GaveUp ==> (attempts == MAX_ATTEMPTS &&
      (fileExists ==> forall k :: 0 <= k < MAX_ATTEMPTS ==> !RemoteAccepts(remote, k)))
    ensures forall i :: 0 <= i < |delays| ==> delays[i] == BackoffDelay(i + 1)
  {
    calls, attempts, delays, outcome := 0, 0, [], StillRetrying;
    while calls < budget
      invariant calls == attempts < MAX_ATTEMPTS && calls <= budget
      invariant |delays| == attempts && forall i :: 0 <= i < |delays| ==> delays[i] == BackoffDelay(i + 1)
      invariant fileExists ==> forall k :: 0 <= k < attempts ==> !RemoteAccepts(remote, k)
      decreases budget - calls
    {
      calls := calls + 1;
      attempts := attempts + 1;
      if fileExists && RemoteAccepts(remote, attempts - 1) {
        outcome := Uploaded(attempts);
        return;
      }
      if attempts < MAX_ATTEMPTS {
        delays := delays + [BackoffDelay(attempts)];
      } else {
        outcome := GaveUp;
        return;
      }
    }
  }

  // ---------------------------------------------------------------------
  // Deletion
  // ---------------------------------------------------------------------

  /**
   * deleteFromCloudinary, given the answer of the storage service's destroy
   * call (None when it threw): null unless a non-empty public id was found and
   * destroy answered; any answer, even "not found", is a truthy result.
   */
  function DeleteFromCloudinary(url: string, destroyAnswer: Option<string>): (r: Option<string>)
    ensures r.Some? <==> (ExtractPublicIdFromUrl(url).Some? && ExtractPublicIdFromUrl(url).value != "" &&
      destroyAnswer.Some?)
    ensures r.Some? ==> r == destroyAnswer
  {
    if url == "" then None
    else
      match ExtractPublicIdFromUrl(url)
      case None => None
      case Some(publicId) => if publicId == "" then None else destroyAnswer
  }

  datatype DeleteResult = DeleteResult(url: string, success: bool)
  datatype DeleteError = DeleteError(url: string, error: string)

  function CountSuccesses(results: seq<DeleteResult>): (n: nat)
    ensures n <= |results|
  {
    if results == [] then 0
    else CountSuccesses(results[..|results| - 1]) + (if results[|results| - 1].success then 1 else 0)
  }

  predicate Succeeded(r: DeleteResult)
  {
    r.success
  }

  lemma {:induction false} FilterCountsSuccesses(results: seq<DeleteResult>)
    ensures |Filter(results, Succeeded)| == CountSuccesses(results)
  {
    if results != [] {
      FilterCountsSuccesses(results[..|results| - 1]);
    }
  }

  /**
   * deleteMultipleFromCloudinary: one result per url, in order. Because
   * deleteFromCloudinary never throws, the error list stays empty.
   */
  method DeleteMultipleFromCloudinary(urls: seq<string>, destroyAnswers: seq<Option<string>>)
    returns (results: seq<DeleteResult>, errors: seq<DeleteError>, successCount: nat)
    requires |destroyAnswers| == |urls|
    ensures |results| == |urls|
    ensures forall i :: 0 <= i < |urls| ==>
      results[i] == DeleteResult(urls[i], DeleteFromCloudinary(urls[i], destroyAnswers[i]).Some?)
    ensures errors == []
    ensures successCount == CountSuccesses(results) <= |urls|
  {
    results, errors := [], [];
    var i := 0;
    while i < |urls|
      invariant 0 <= i <= |urls| && |results| == i
      invariant forall j :: 0 <= j < i ==>
        results[j] == DeleteResult(urls[j], DeleteFromCloudinary(urls[j], destroyAnswers[j]).Some?)
    {
      var result := DeleteFromCloudinary(urls[i], destroyAnswers[i]);
      results := results + [DeleteResult(urls[i], result.Some?)];
      i := i + 1;
    }
    successCount := |Filter(results, Succeeded)|;
    FilterCountsSuccesses(results);
  }

  // ---------------------------------------------------------------------
  // Error mapping
  // ---------------------------------------------------------------------

  datatype ErrorResponse = ErrorResponse(message: string, statusCode: int)

  /**
   * handleCloudinaryError: a (truthy) storage-service status is mapped through
   * its table; otherwise the error message is searched for file-system and
   * network causes.
   */
  function HandleCloudinaryError(statusCode: Option<int>, message: string): (r: ErrorResponse)
    ensures r.statusCode in {400, 403, 404, 408, 413, 429, 500}
    ensures statusCode.Some? && statusCode.value in {400, 403, 404, 429} ==> r.statusCode == statusCode.value
    ensures statusCode.Some? && statusCode.value != 0 && statusCode.value !in {400, 403, 404, 429} ==>
      r.statusCode == 500
    ensures statusCode.Some? && statusCode.value != 0 ==> r.statusCode !in {408, 413}
    ensures (statusCode.None? || statusCode.value == 0) ==>
      r.statusCode == (if Contains(message, "ENOENT") then 400
                       else if Contains(message, "ENOMEM") then 413
                       else if Contains(message, "timeout") then 408
                       else 500)
  {
    if statusCode.Some? && statusCode.value != 0 then
      match statusCode.value
      case 400 => ErrorResponse("Invalid file format or parameters", 400)
      case 401 => ErrorResponse("Authentication failed with Cloudinary", 500)
      case 403 => ErrorResponse("Not authorized to perform this operation", 403)
      case 404 => ErrorResponse("File not found", 404)
      case 429 => ErrorResponse("Too many requests. Please try again later", 429)
      case _ => ErrorResponse("Upload service error. Please try again.", 500)
    else if Contains(message, "ENOENT") then ErrorResponse("File not found on server", 400)
    else if Contains(message, "ENOMEM") then ErrorResponse("Out of memory. File too large.", 413)
    else if Contains(message, "timeout") then ErrorResponse("Upload timeout. Please try again.", 408)
    else ErrorResponse("Upload failed. Please try again.", 500)
  }
}
