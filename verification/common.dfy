/**
 * JavaScript value semantics shared by the rest of the model: optional
 * values, the role names, String.prototype.trim, UTF-16 string length,
 * substring search, the first-match String.prototype.replace,
 * Array.prototype.slice with negative indices, `parseInt(x) || default`,
 * and the Map/Set de-duplications the services use.
 */
module Common {

  datatype Option<T> = None | Some(value: T)

  /** Document ids are compared through their string form. */
  type Id = string

  const USER := "USER"
  const ADMIN := "ADMIN"
  const SUPER_ADMIN := "SUPER_ADMIN"
  const TENANT_ADMIN := "TENANT_ADMIN"

  const ACTIVE := "ACTIVE"
  const BANNED := "BANNED"

  // ---------------------------------------------------------------------
  // Characters
  // ---------------------------------------------------------------------

  /** The WhiteSpace and LineTerminator code points that `trim` removes. */
  predicate IsJsWhitespace(c: char)
  {
    c == '\t' || c == '\n' || c == '\U{000B}' || c == '\U{000C}' || c == '\r' ||
    c == ' ' || c == '\U{00A0}' || c == '\U{1680}' ||
    ('\U{2000}' <= c <= '\U{200A}') ||
    c == '\U{2028}' || c == '\U{2029}' || c == '\U{202F}' || c == '\U{205F}' ||
    c == '\U{3000}' || c == '\U{FEFF}'
  }

  /** The characters `.` in a regular expression refuses to match. */
  predicate IsLineTerminator(c: char)
  {
    c == '\n' || c == '\r' || c == '\U{2028}' || c == '\U{2029}'
  }

  /** `\d` of a regular expression without the `u` flag. */
  predicate IsDigit(c: char)
  {
    '0' <= c <= '9'
  }

  /** `\w` of a regular expression without the `u` flag. */
  predicate IsWordChar(c: char)
  {
    ('a' <= c <= 'z') || ('A' <= c <= 'Z') || IsDigit(c) || c == '_'
  }

  predicate AllDigits(s: string)
  {
    forall i :: 0 <= i < |s| ==> IsDigit(s[i])
  }

  function LowerChar(c: char): char
  {
    if 'A' <= c <= 'Z' then (c as int + 32) as char else c
  }

  /** `toLowerCase` restricted to ASCII letters. */
  function ToLower(s: string): (r: string)
    ensures |r| == |s|
    ensures forall i :: 0 <= i < |s| ==> r[i] == LowerChar(s[i])
    ensures forall i :: 0 <= i < |r| ==> !('A' <= r[i] <= 'Z')
  {
    seq(|s|, i requires 0 <= i < |s| => LowerChar(s[i]))
  }

  // ---------------------------------------------------------------------
  // trim
  // ---------------------------------------------------------------------

  function TrimStart(s: string): (r: string)
    ensures |r| <= |s| && r == s[|s| - |r|..]
    ensures forall i :: 0 <= i < |s| - |r| ==> IsJsWhitespace(s[i])
    ensures r == [] || !IsJsWhitespace(r[0])
  {
    if |s| > 0 && IsJsWhitespace(s[0]) then
      var tail := s[1..];
      var r := TrimStart(tail);
      assert tail[|tail| - |r|..] == s[|s| - |r|..];
      assert forall i :: 1 <= i < |s| ==> s[i] == tail[i - 1];
      r
    else s
  }

  function TrimEnd(s: string): (r: string)
    ensures |r| <= |s| && r == s[..|r|]
    ensures forall i :: |r| <= i < |s| ==> IsJsWhitespace(s[i])
    ensures r == [] || !IsJsWhitespace(r[|r| - 1])
  {
    if |s| > 0 && IsJsWhitespace(s[|s| - 1]) then
      var init := s[..|s| - 1];
      var r := TrimEnd(init);
      assert init[..|r|] == s[..|r|];
      assert forall i :: 0 <= i < |s| - 1 ==> s[i] == init[i];
      r
    else s
  }

  /** `r` is `s` with `i` whitespace characters removed before it and only whitespace after it. */
  predicate TrimmedAt(s: string, r: string, i: int)
  {
    0 <= i <= |s| - |r| && r == s[i..i + |r|] &&
    (forall k :: 0 <= k < i ==> IsJsWhitespace(s[k])) &&
    (forall k :: i + |r| <= k < |s| ==> IsJsWhitespace(s[k]))
  }

  /**
   * String.prototype.trim: the result is the part of `s` left after removing
   * every leading and trailing whitespace character.
   */
  function Trim(s: string): (r: string)
    ensures |r| <= |s|
    ensures exists i :: TrimmedAt(s, r, i)
    ensures r == [] || (!IsJsWhitespace(r[0]) && !IsJsWhitespace(r[|r| - 1]))
  {
    var t := TrimStart(s);
    var r := TrimEnd(t);
    StripBoth(s, t, r, IsJsWhitespace);
    assert TrimmedAt(s, r, |s| - |t|);
    r
  }

  /** Stripping a run of `p` from the front and then from the back leaves a slice with only `p` around it. */
  lemma StripBoth<T>(s: seq<T>, t: seq<T>, r: seq<T>, p: T -> bool)
    requires |t| <= |s| && t == s[|s| - |t|..] && forall k :: 0 <= k < |s| - |t| ==> p(s[k])
    requires |r| <= |t| && r == t[..|r|] && forall k :: |r| <= k < |t| ==> p(t[k])
    ensures var i := |s| - |t|;
      r == s[i..i + |r|] && forall k :: i + |r| <= k < |s| ==> p(s[k])
  {
    var i := |s| - |t|;
    assert forall k :: i + |r| <= k < |s| ==> s[k] == t[k - i];
  }

  lemma TrimEmptyIffBlank(s: string)
    ensures Trim(s) == [] <==> forall i :: 0 <= i < |s| ==> IsJsWhitespace(s[i])
  {
    var r := Trim(s);
    if r != [] {
      var i :| TrimmedAt(s, r, i);
      assert s[i] == r[0];
    }
  }

  lemma {:induction false} TrimStartOfNonBlankStart(s: string)
    requires s == [] || !IsJsWhitespace(s[0])
    ensures TrimStart(s) == s
  {
  }

  lemma TrimIdempotent(s: string)
    ensures Trim(Trim(s)) == Trim(s)
  {
    var r := Trim(s);
    if r != [] {
      assert TrimStart(r) == r;
      assert TrimEnd(r) == r;
    }
  }

  // ---------------------------------------------------------------------
  // UTF-16 length
  // ---------------------------------------------------------------------

  /** `.length` of a JavaScript string: code points above U+FFFF take two units. */
  function Utf16Length(s: string): (n: nat)
    ensures |s| <= n <= 2 * |s|
    ensures (forall i :: 0 <= i < |s| ==> s[i] as int <= 0xFFFF) ==> n == |s|
  {
    if s == [] then 0
    else (if s[0] as int > 0xFFFF then 2 else 1) + Utf16Length(s[1..])
  }

  lemma {:induction false} Utf16LengthAppend(a: string, b: string)
    ensures Utf16Length(a + b) == Utf16Length(a) + Utf16Length(b)
  {
    if a == [] {
      assert a + b == b;
    } else {
      assert (a + b)[1..] == a[1..] + b;
      Utf16LengthAppend(a[1..], b);
    }
  }

  // ---------------------------------------------------------------------
  // Substrings
  // ---------------------------------------------------------------------

  predicate OccursAt(s: string, t: string, i: int)
  {
    0 <= i && i + |t| <= |s| && s[i..i + |t|] == t
  }

  /** String.prototype.includes. */
  predicate Contains(s: string, t: string)
  {
    exists i :: 0 <= i <= |s| - |t| && OccursAt(s, t, i)
  }

  /** String.prototype.indexOf, searching from `from`. */
  function IndexOfFrom(s: string, t: string, from: nat): (r: Option<nat>)
    requires from <= |s| + 1
    ensures r.Some? ==> (from <= r.value && OccursAt(s, t, r.value) &&
      forall k :: from <= k < r.value ==> !OccursAt(s, t, k))
    ensures r.None? ==> forall k :: from <= k ==> !OccursAt(s, t, k)
    decreases |s| + 1 - from
  {
    if from + |t| > |s| then None
    else if s[from..from + |t|] == t then Some(from)
    else IndexOfFrom(s, t, from + 1)
  }

  function IndexOf(s: string, t: string): (r: Option<nat>)
    ensures r.Some? <==> Contains(s, t)
    ensures r.Some? ==> OccursAt(s, t, r.value) && forall k :: 0 <= k < r.value ==> !OccursAt(s, t, k)
  {
    IndexOfFrom(s, t, 0)
  }

  /** String.prototype.replace with a string pattern: only the first occurrence is replaced. */
  function ReplaceFirst(s: string, pattern: string, replacement: string): (r: string)
    ensures !Contains(s, pattern) ==> r == s
    ensures Contains(s, pattern) ==> exists i :: (OccursAt(s, pattern, i) &&
      (forall k :: 0 <= k < i ==> !OccursAt(s, pattern, k)) &&
      r == s[..i] + replacement + s[i + |pattern|..])
  {
    match IndexOf(s, pattern)
    case None => s
    case Some(i) => s[..i] + replacement + s[i + |pattern|..]
  }

  lemma ReplaceFirstOfPrefix(pattern: string, rest: string, replacement: string)
    ensures ReplaceFirst(pattern + rest, pattern, replacement) == replacement + rest
  {
    var s := pattern + rest;
    assert s[0..|pattern|] == pattern;
    assert IndexOfFrom(s, pattern, 0) == Some(0);
    assert ReplaceFirst(s, pattern, replacement) == s[..0] + replacement + s[|pattern|..];
    assert s[..0] == [] && s[|pattern|..] == rest;
  }

  // ---------------------------------------------------------------------
  // Sequences
  // ---------------------------------------------------------------------

  /** Array.prototype.map. */
  function MapSeq<A, B>(s: seq<A>, f: A -> B): (r: seq<B>)
    ensures |r| == |s|
    ensures forall i :: 0 <= i < |s| ==> r[i] == f(s[i])
  {
    seq(|s|, i requires 0 <= i < |s| => f(s[i]))
  }

  lemma ConcatAssoc<T>(a: seq<T>, b: seq<T>, c: seq<T>)
    ensures a + (b + c) == (a + b) + c
  {
  }

  lemma HeadTail<T>(s: seq<T>)
    requires s != []
    ensures [s[0]] + s[1..] == s
  {
  }

  /** Array.prototype.filter. */
  function Filter<T>(s: seq<T>, p: T -> bool): (r: seq<T>)
    ensures |r| <= |s|
    ensures forall i :: 0 <= i < |r| ==> r[i] in s && p(r[i])
    ensures forall i :: 0 <= i < |s| && p(s[i]) ==> s[i] in r
    ensures multiset(r) <= multiset(s)
  {
    if s == [] then []
    else
      var init := s[..|s| - 1];
      assert s == init + [s[|s| - 1]];
      if p(s[|s| - 1]) then Filter(init, p) + [s[|s| - 1]]
      else Filter(init, p)
  }

  lemma {:induction false} FilterAppend<T>(a: seq<T>, b: seq<T>, p: T -> bool)
    ensures Filter(a + b, p) == Filter(a, p) + Filter(b, p)
    decreases |b|
  {
    if b == [] {
      assert a + b == a;
    } else {
      var init := b[..|b| - 1];
      var x := b[|b| - 1];
      assert b == init + [x];
      ConcatAssoc(a, init, [x]);
      FilterAppend(a, init, p);
      FilterSnoc(a + init, x, p);
      FilterSnoc(init, x, p);
      if p(x) {
        ConcatAssoc(Filter(a, p), Filter(init, p), [x]);
      }
    }
  }

  /** Filtering a sequence with one more element at the end. */
  lemma FilterSnoc<T>(s: seq<T>, x: T, p: T -> bool)
    ensures Filter(s + [x], p) == if p(x) then Filter(s, p) + [x] else Filter(s, p)
  {
    var t := s + [x];
    assert t[..|t| - 1] == s;
    assert t[|t| - 1] == x;
  }

  /** Filtering keeps every passing value as often as it occurs and drops every other value. */
  lemma {:induction false} FilterCount<T>(s: seq<T>, p: T -> bool, x: T)
    ensures multiset(Filter(s, p))[x] == if p(x) then multiset(s)[x] else 0
  {
    if s != [] {
      var init := s[..|s| - 1];
      var y := s[|s| - 1];
      assert s == init + [y];
      FilterCount(init, p, x);
      FilterSnoc(init, y, p);
    }
  }

  lemma FilterCounts<T>(s: seq<T>, p: T -> bool)
    ensures forall x :: multiset(Filter(s, p))[x] == if p(x) then multiset(s)[x] else 0
  {
    forall x ensures multiset(Filter(s, p))[x] == if p(x) then multiset(s)[x] else 0 {
      FilterCount(s, p, x);
    }
  }

  lemma {:induction false} FilterAll<T>(s: seq<T>, p: T -> bool)
    requires forall i :: 0 <= i < |s| ==> p(s[i])
    ensures Filter(s, p) == s
  {
    if s != [] {
      FilterAll(s[..|s| - 1], p);
      assert s[..|s| - 1] + [s[|s| - 1]] == s;
    }
  }

  /** A filter that drops nothing found every element passing. */
  lemma {:induction false} FilterKeptAll<T>(s: seq<T>, p: T -> bool)
    requires |Filter(s, p)| == |s|
    ensures forall i :: 0 <= i < |s| ==> p(s[i])
  {
    if s != [] {
      var init := s[..|s| - 1];
      assert p(s[|s| - 1]);
      FilterKeptAll(init, p);
      assert forall i :: 0 <= i < |init| ==> s[i] == init[i];
    }
  }

  predicate Distinct<T(==)>(s: seq<T>)
  {
    forall i, j :: 0 <= i < j < |s| ==> s[i] != s[j]
  }

  /** Appending an element not yet present keeps a sequence duplicate-free. */
  lemma DistinctAppend<T>(s: seq<T>, x: T)
    requires Distinct(s) && x !in s
    ensures Distinct(s + [x])
  {
    var t := s + [x];
    forall i, j | 0 <= i < j < |t| ensures t[i] != t[j] {
      assert t[i] == s[i];
      if j == |s| {
        assert s[i] in s;
      } else {
        assert t[j] == s[j];
      }
    }
  }

  /**
   * `[...new Set(s)]`: one copy of each element, in the order of first
   * occurrence.
   */
  function DedupKeepFirst<T(==)>(s: seq<T>): (r: seq<T>)
    ensures Distinct(r)
    ensures forall i :: 0 <= i < |r| ==> r[i] in s
    ensures forall i :: 0 <= i < |s| ==> s[i] in r
    ensures |r| <= |s|
    ensures |s| > 0 ==> |r| > 0 && r[0] == s[0]
  {
    if s == [] then []
    else
      var p := DedupKeepFirst(s[..|s| - 1]);
      if s[|s| - 1] in s[..|s| - 1] then
        (assert |s| > 1 && s[0] == s[..|s| - 1][0]; p)
      else p + [s[|s| - 1]]
  }

  lemma {:induction false} DedupOfDistinct<T>(s: seq<T>)
    requires Distinct(s)
    ensures DedupKeepFirst(s) == s
  {
    if s != [] {
      var init := s[..|s| - 1];
      assert Distinct(init);
      DedupOfDistinct(init);
      assert s[|s| - 1] !in init;
      assert init + [s[|s| - 1]] == s;
    }
  }

  /**
   * Array.prototype.slice(start, end) with JavaScript's index rules: a
   * negative index counts from the end, every index is clamped to the array.
   */
  function SliceIndex(len: nat, k: int): (r: nat)
    ensures r <= len
  {
    if k < 0 then (if len + k < 0 then 0 else len + k)
    else if k > len then len else k
  }

  function JsSlice<T>(s: seq<T>, start: int, end: int): (r: seq<T>)
    ensures |r| <= |s|
    ensures 0 <= start <= end ==>
      r == s[SliceIndex(|s|, start)..SliceIndex(|s|, end)]
    ensures start < 0 && end >= |s| ==>
      r == s[SliceIndex(|s|, start)..]
  {
    var from := SliceIndex(|s|, start);
    var to := SliceIndex(|s|, end);
    if from < to then s[from..to] else []
  }

  /** `xs.length > n ? xs.slice(-n) : xs`: the last `n` elements. */
  function LastN<T>(s: seq<T>, n: nat): (r: seq<T>)
    ensures |r| == if |s| > n then n else |s|
    ensures r == s[|s| - |r|..]
  {
    if |s| > n then s[|s| - n..] else s
  }

  /** Keeping the last `n` of a list extended by `x`: `x` comes last, after the last `n - 1` of the list. */
  lemma LastNSnoc<T>(s: seq<T>, x: T, n: nat)
    requires n >= 1
    ensures var r := LastN(s + [x], n);
      |r| == (if |s| >= n then n else |s| + 1) && r[|r| - 1] == x && r[..|r| - 1] == s[|s| - (|r| - 1)..]
  {
    var t := s + [x];
    var r := LastN(t, n);
    assert r[..|r| - 1] == t[|t| - |r|..|t| - 1];
    assert t[|t| - |r|..|t| - 1] == s[|s| - (|r| - 1)..];
  }

  /** `parseInt(raw) || fallback`: a missing, unparsable or zero value yields the fallback. */
  function ParseIntOr(raw: Option<int>, fallback: int): (r: int)
    ensures raw.Some? && raw.value != 0 ==> r == raw.value
    ensures raw.None? || raw.value == 0 ==> r == fallback
  {
    if raw.Some? && raw.value != 0 then raw.value else fallback
  }

  /** `Math.ceil(total / limit)` for a positive limit: the number of pages. */
  function PageCount(total: nat, limit: int): (pages: nat)
    requires limit >= 1
    ensures total <= pages * limit
    ensures pages > 0 ==> (pages - 1) * limit < total
    ensures pages == 0 <==> total == 0
  {
    if total == 0 then 0
    else if total <= limit then 1
    else
      var rest := PageCount(total - limit, limit);
      assert (rest + 1) * limit == rest * limit + limit;
      rest + 1
  }
}
