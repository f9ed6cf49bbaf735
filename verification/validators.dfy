/**
 * Input validators: the e-mail pattern, phone numbers (formatting
 * characters allowed, 10 to 15 digits with an optional leading '+'),
 * password length, ObjectId syntax, and the throwing wrappers the
 * controllers call.
 */
module Validators {
  import opened Common

  // ---------------------------------------------------------------------
  // E-mail: the regular language ^\w+([.-]?\w+)*@\w+([.-]?\w+)*(\.\w{2,3})+$
  // ---------------------------------------------------------------------

  predicate IsSeparator(c: char)
  {
    c == '.' || c == '-'
  }

  /**
   * Word characters joined by single '.' or '-' separators: no separator
   * at either end and never two separators side by side.
   */
  predicate DottedWords(s: string)
  {
    |s| > 0 && IsWordChar(s[0]) && SeparatedTail(s)
  }

  /** Words and single separators, ending with a word character (possibly empty). */
  predicate SeparatedTail(s: string)
  {
    (forall i :: 0 <= i < |s| ==> IsWordChar(s[i]) || IsSeparator(s[i])) &&
    (forall i :: 0 <= i < |s| - 1 ==> IsWordChar(s[i]) || IsWordChar(s[i + 1])) &&
    (s == [] || IsWordChar(s[|s| - 1]))
  }

  /** The domain ends in '.' followed by exactly `n` word characters. */
  predicate TldSuffix(d: string, n: nat)
  {
    |d| >= n + 1 && d[|d| - n - 1] == '.' &&
    forall i :: |d| - n <= i < |d| ==> IsWordChar(d[i])
  }

  predicate ValidDomain(d: string)
  {
    DottedWords(d) && (TldSuffix(d, 2) || TldSuffix(d, 3))
  }

  /**
   * isValidEmail: a dotted-words local part, the first '@', and a
   * dotted-words domain whose last component is '.' and 2 or 3 word
   * characters.
   */
  function IsValidEmail(email: string): (r: bool)
    ensures r <==> EmailRegex(email)
  {
    EmailRegexIff(email);
    EmailShape(email)
  }

  /** The local part before the first '@' and the domain after it. */
  predicate EmailShape(email: string)
  {
    match IndexOf(email, "@")
    case None => false
    case Some(a) => DottedWords(email[..a]) && ValidDomain(email[a + 1..])
  }

  // The regular expression, written as its grammar.

  ghost predicate WordRun(s: string)
  {
    |s| > 0 && forall i :: 0 <= i < |s| ==> IsWordChar(s[i])
  }

  /** `[.-]?\w+` */
  ghost predicate Segment(s: string)
  {
    WordRun(s) || (|s| > 1 && IsSeparator(s[0]) && WordRun(s[1..]))
  }

  /** `([.-]?\w+)*` */
  ghost predicate Segments(s: string)
    decreases |s|
  {
    s == [] || exists k :: 0 < k <= |s| && Segment(s[..k]) && Segments(s[k..])
  }

  /** `\w+([.-]?\w+)*` */
  ghost predicate WordsPattern(s: string)
  {
    exists k :: 0 < k <= |s| && WordRun(s[..k]) && Segments(s[k..])
  }

  /** `\.\w{2,3}` */
  ghost predicate Tld(s: string)
  {
    (|s| == 3 || |s| == 4) && s[0] == '.' && WordRun(s[1..])
  }

  /** `(\.\w{2,3})+` */
  ghost predicate Tlds(s: string)
    decreases |s|
  {
    exists k :: 0 < k <= |s| && Tld(s[..k]) && (k == |s| || Tlds(s[k..]))
  }

  ghost predicate DomainPattern(d: string)
  {
    exists b :: 0 < b <= |d| && WordsPattern(d[..b]) && Tlds(d[b..])
  }

  /** The whole anchored pattern. */
  ghost predicate EmailRegex(s: string)
  {
    exists a :: 0 <= a < |s| && s[a] == '@' && WordsPattern(s[..a]) && DomainPattern(s[a + 1..])
  }

  // Proof that the executable check and the grammar agree.

  /** End of the run of word characters starting at `j`. */
  function RunEnd(s: string, j: nat): (e: nat)
    requires j <= |s|
    ensures j <= e <= |s|
    ensures forall i :: j <= i < e ==> IsWordChar(s[i])
    ensures e < |s| ==> !IsWordChar(s[e])
    decreases |s| - j
  {
    if j < |s| && IsWordChar(s[j]) then RunEnd(s, j + 1) else j
  }

  lemma SegmentShape(s: string)
    requires Segment(s)
    ensures |s| > 0 && IsWordChar(s[|s| - 1]) && SeparatedTail(s)
  {
    if !WordRun(s) {
      assert WordRun(s[1..]);
      assert forall j :: 0 <= j < |s| - 1 ==> s[1..][j] == s[j + 1];
    }
  }

  lemma SeparatedTailConcat(a: string, b: string)
    requires |a| > 0 && SeparatedTail(a) && SeparatedTail(b)
    ensures SeparatedTail(a + b)
  {
    var ab := a + b;
    assert forall i :: 0 <= i < |a| ==> ab[i] == a[i];
    assert forall i :: |a| <= i < |ab| ==> ab[i] == b[i - |a|];
  }

  lemma {:induction false} SegmentsSound(s: string)
    requires Segments(s)
    ensures SeparatedTail(s)
    decreases |s|
  {
    if s != [] {
      var k :| 0 < k <= |s| && Segment(s[..k]) && Segments(s[k..]);
      SegmentShape(s[..k]);
      SegmentsSound(s[k..]);
      SeparatedTailConcat(s[..k], s[k..]);
      assert s[..k] + s[k..] == s;
    }
  }

  lemma SeparatedTailSuffix(s: string, k: nat)
    requires SeparatedTail(s) && k <= |s|
    ensures SeparatedTail(s[k..])
  {
    var t := s[k..];
    assert forall i :: 0 <= i < |t| ==> t[i] == s[k + i];
  }

  lemma {:induction false} SegmentsComplete(s: string)
    requires SeparatedTail(s)
    requires s == [] || IsWordChar(s[0]) || |s| > 1
    ensures Segments(s)
    decreases |s|
  {
    if s != [] {
      var start := if IsWordChar(s[0]) then 0 else 1;
      if start == 1 {
        assert IsWordChar(s[1]);
      }
      var k := RunEnd(s, start);
      assert k > start;
      assert s[..k][start..] == s[start..k];
      assert Segment(s[..k]);
      SeparatedTailSuffix(s, k);
      if k < |s| {
        assert IsSeparator(s[k]);
        assert |s[k..]| > 1;
      }
      SegmentsComplete(s[k..]);
    }
  }

  lemma WordsPatternIff(s: string)
    ensures WordsPattern(s) <==> DottedWords(s)
  {
    if WordsPattern(s) {
      var k :| 0 < k <= |s| && WordRun(s[..k]) && Segments(s[k..]);
      SegmentsSound(s[k..]);
      assert SeparatedTail(s[..k]);
      if k == |s| {
        assert s[..k] == s;
      } else {
        SeparatedTailConcat(s[..k], s[k..]);
        assert s[..k] + s[k..] == s;
      }
      assert s[0] == s[..k][0];
    }
    if DottedWords(s) {
      var k := RunEnd(s, 0);
      assert WordRun(s[..k]);
      SeparatedTailSuffix(s, k);
      if k < |s| {
        assert IsSeparator(s[k]);
        assert k < |s| - 1;
      }
      SegmentsComplete(s[k..]);
    }
  }

  lemma {:induction false} TldsShape(t: string)
    requires Tlds(t)
    ensures |t| > 0 && t[0] == '.'
    ensures SeparatedTail(t)
    ensures TldSuffix(t, 2) || TldSuffix(t, 3)
    decreases |t|
  {
    var k :| 0 < k <= |t| && Tld(t[..k]) && (k == |t| || Tlds(t[k..]));
    var head := t[..k];
    TldShape(head);
    if k == |t| {
      assert head == t;
    } else {
      var rest := t[k..];
      SplitRejoins(t, k);
      TldsShape(rest);
      SeparatedTailConcat(head, rest);
      if TldSuffix(rest, 2) {
        TldSuffixConcat(head, rest, 2);
      } else {
        TldSuffixConcat(head, rest, 3);
      }
    }
  }

  lemma SplitRejoins(t: string, k: nat)
    requires k <= |t|
    ensures t[..k] + t[k..] == t
  {
  }

  lemma TldShape(head: string)
    requires Tld(head)
    ensures head[0] == '.' && SeparatedTail(head)
    ensures TldSuffix(head, |head| - 1) && (|head| - 1 == 2 || |head| - 1 == 3)
  {
    assert forall j :: 0 <= j < |head| - 1 ==> head[1..][j] == head[j + 1];
  }

  /** A tld ending survives putting text in front. */
  lemma TldSuffixConcat(head: string, rest: string, n: nat)
    requires TldSuffix(rest, n)
    ensures TldSuffix(head + rest, n)
  {
    var t := head + rest;
    assert forall i :: |rest| - n - 1 <= i < |rest| ==> rest[i] == t[|head| + i];
  }

  lemma DomainPatternSound(d: string)
    requires DomainPattern(d)
    ensures ValidDomain(d)
  {
    var b :| 0 < b <= |d| && WordsPattern(d[..b]) && Tlds(d[b..]);
    WordsPatternIff(d[..b]);
    TldsShape(d[b..]);
    var head, rest := d[..b], d[b..];
    SeparatedTailConcat(head, rest);
    assert head + rest == d;
    assert d[0] == head[0];
    if TldSuffix(rest, 2) {
      TldSuffixConcat(head, rest, 2);
    } else {
      TldSuffixConcat(head, rest, 3);
    }
  }

  lemma DomainPatternComplete(d: string, n: nat)
    requires DottedWords(d) && TldSuffix(d, n) && (n == 2 || n == 3)
    ensures DomainPattern(d)
  {
    var b := |d| - n - 1;
    assert b > 0 by {
      assert d[b] == '.' && IsWordChar(d[0]);
    }
    var head := d[..b];
    assert IsWordChar(d[b - 1]);
    assert forall i :: 0 <= i < |head| ==> head[i] == d[i];
    assert DottedWords(head);
    WordsPatternIff(head);
    var rest := d[b..];
    assert rest[..|rest|] == rest;
    assert forall j :: 0 <= j < |rest| - 1 ==> rest[1..][j] == d[b + 1 + j];
    assert Tld(rest[..|rest|]);
    assert Tlds(rest);
  }

  lemma DomainPatternIff(d: string)
    ensures DomainPattern(d) <==> ValidDomain(d)
  {
    if DomainPattern(d) {
      DomainPatternSound(d);
    }
    if ValidDomain(d) {
      DomainPatternComplete(d, if TldSuffix(d, 2) then 2 else 3);
    }
  }

  lemma EmailRegexSound(s: string, a: nat)
    requires a < |s| && s[a] == '@' && WordsPattern(s[..a]) && DomainPattern(s[a + 1..])
    ensures IndexOf(s, "@") == Some(a)
    ensures DottedWords(s[..a]) && ValidDomain(s[a + 1..])
  {
    WordsPatternIff(s[..a]);
    DomainPatternSound(s[a + 1..]);
    assert OccursAt(s, "@", a);
    var first := IndexOf(s, "@").value;
    assert s[first..first + 1] == "@";
    assert s[first] == '@';
    forall i | 0 <= i < a
      ensures s[i] != '@'
    {
      assert s[..a][i] == s[i];
    }
  }

  lemma EmailRegexComplete(s: string, a: nat)
    requires a < |s| && s[a] == '@'
    requires DottedWords(s[..a]) && ValidDomain(s[a + 1..])
    ensures EmailRegex(s)
  {
    WordsPatternIff(s[..a]);
    DomainPatternIff(s[a + 1..]);
  }

  lemma EmailRegexIff(s: string)
    ensures EmailRegex(s) <==> EmailShape(s)
  {
    if EmailRegex(s) {
      RegexMatchHasShape(s);
    }
    if EmailShape(s) {
      ShapeMatchesRegex(s);
    }
  }

  lemma RegexMatchHasShape(s: string)
    requires EmailRegex(s)
    ensures EmailShape(s)
  {
    var a :| 0 <= a < |s| && s[a] == '@' && WordsPattern(s[..a]) && DomainPattern(s[a + 1..]);
    EmailRegexSound(s, a);
    EmailShapeAt(s, a);
  }

  lemma EmailShapeAt(s: string, a: nat)
    requires a < |s| && IndexOf(s, "@") == Some(a)
    requires DottedWords(s[..a]) && ValidDomain(s[a + 1..])
    ensures EmailShape(s)
  {
  }

  lemma ShapeMatchesRegex(s: string)
    requires EmailShape(s)
    ensures EmailRegex(s)
  {
    var a := IndexOf(s, "@").value;
    assert s[a..a + 1] == "@";
    EmailRegexComplete(s, a);
  }

  // ---------------------------------------------------------------------
  // Phone numbers
  // ---------------------------------------------------------------------

  predicate IsPhoneChar(c: char)
  {
    IsDigit(c) || c == '+'
  }

  /** `phone.replace(/[^\d+]/g, '')` */
  function CleanPhone(phone: string): (r: string)
    ensures forall i :: 0 <= i < |r| ==> IsPhoneChar(r[i])
  {
    Filter(phone, IsPhoneChar)
  }

  /** `/^\+?\d{10,15}$/` */
  predicate PhonePattern(c: string)
  {
    (|c| > 0 && c[0] == '+' && 10 <= |c| - 1 <= 15 && AllDigits(c[1..])) ||
    (10 <= |c| <= 15 && AllDigits(c))
  }

  /** isValidPhone: a non-empty input whose digits and '+' signs form the pattern. */
  function IsValidPhone(phone: string): (r: bool)
    ensures r ==> 10 <= |DigitsOnly(phone)| <= 15
    ensures r <==> phone != "" && PhonePattern(CleanPhone(phone))
  {
    ValidPhoneDigits(phone);
    phone != "" && PhonePattern(CleanPhone(phone))
  }

  /** `phone.replace(/\D/g, '')`: the normalisation applied before storing a phone. */
  function DigitsOnly(phone: string): (r: string)
    ensures AllDigits(r)
    ensures |r| <= |phone|
  {
    Filter(phone, IsDigit)
  }

  lemma {:induction false} DigitsOfCleaned(s: string)
    ensures Filter(CleanPhone(s), IsDigit) == DigitsOnly(s)
    decreases |s|
  {
    if s != [] {
      var init := s[..|s| - 1];
      var x := s[|s| - 1];
      DigitsOfCleaned(init);
      if IsPhoneChar(x) {
        FilterAppend(Filter(init, IsPhoneChar), [x], IsDigit);
        assert Filter([x], IsDigit) == (if IsDigit(x) then [x] else []) by {
          assert [x][..0] == [];
        }
      }
    }
  }

  lemma ValidPhoneDigits(phone: string)
    ensures PhonePattern(CleanPhone(phone)) ==> 10 <= |DigitsOnly(phone)| <= 15
  {
    var c := CleanPhone(phone);
    if !PhonePattern(c) {
      return;
    }
    DigitsOfCleaned(phone);
    if |c| > 0 && c[0] == '+' && AllDigits(c[1..]) {
      FilterAppend([c[0]], c[1..], IsDigit);
      assert [c[0]] + c[1..] == c;
      FilterAll(c[1..], IsDigit);
      assert Filter([c[0]], IsDigit) == [] by {
        assert [c[0]][..0] == [];
      }
    } else {
      FilterAll(c, IsDigit);
    }
  }

  // ---------------------------------------------------------------------
  // Passwords and ObjectIds
  // ---------------------------------------------------------------------

  /** isValidPassword: present and at least 6 UTF-16 code units long. */
  function IsValidPassword(password: string): (r: bool)
    ensures r ==> |password| >= 3
    ensures r <==> Utf16Length(password) >= 6
  {
    password != "" && Utf16Length(password) >= 6
  }

  predicate IsHexDigit(c: char)
  {
    IsDigit(c) || ('a' <= c <= 'f') || ('A' <= c <= 'F')
  }

  /** isValidObjectId: exactly 24 hexadecimal digits. */
  function IsValidObjectId(id: string): (r: bool)
    ensures r ==> |id| == 24
    ensures r <==> |id| == 24 && forall i :: 0 <= i < |id| ==> IsHexDigit(id[i])
  {
    |id| == 24 && forall i :: 0 <= i < |id| ==> IsHexDigit(id[i])
  }

  // ---------------------------------------------------------------------
  // Throwing wrappers
  // ---------------------------------------------------------------------

  /** The outcome of a validator that throws `Error(message)` on bad input. */
  datatype Verdict = Accepted | Thrown(message: string)

  function ValidateEmail(email: string): (r: Verdict)
    ensures r == Accepted <==> EmailRegex(email)
    ensures email == "" ==> r == Thrown("Email is required")
    ensures email != "" && !EmailRegex(email) ==> r == Thrown("Invalid email format")
  {
    if email == "" then Thrown("Email is required")
    else if !IsValidEmail(email) then Thrown("Invalid email format")
    else Accepted
  }

  function ValidatePassword(password: string): (r: Verdict)
    ensures r == Accepted <==> Utf16Length(password) >= 6
    ensures password == "" ==> r == Thrown("Password is required")
    ensures password != "" && Utf16Length(password) < 6 ==>
      r == Thrown("Password must be at least 6 characters")
  {
    if password == "" then Thrown("Password is required")
    else if !IsValidPassword(password) then Thrown("Password must be at least 6 characters")
    else Accepted
  }

  /** A missing phone is accepted: the phone number is optional. */
  function ValidatePhone(phone: string): (r: Verdict)
    ensures r == Accepted <==> phone == "" || IsValidPhone(phone)
    ensures r != Accepted ==> r == Thrown("Invalid phone number format")
    ensures r == Accepted && phone != "" ==> 10 <= |DigitsOnly(phone)| <= 15
  {
    if phone == "" then Accepted
    else if !IsValidPhone(phone) then Thrown("Invalid phone number format")
    else Accepted
  }
}
