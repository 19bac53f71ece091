/**
 * The input validators of lib/utils/validation.ts: e-mail shape, password
 * length, date-range ordering and the inclusive leave-day count.
 *
 * Dates are whole days: a date string that parses is the day number it
 * names (days since an arbitrary epoch), a blank string is `Blank`, and any
 * other string is `Unparsable` (JavaScript's "Invalid Date").
 */
module Validation {
  import opened Wrappers

  // ---------------------------------------------------------------------
  // validateEmail: /^[^\s@]+@[^\s@]+\.[^\s@]+$/
  // ---------------------------------------------------------------------

  /** The characters the regular-expression class `\s` matches (ECMAScript
   *  WhiteSpace and LineTerminator code points). */
  predicate IsJsWhitespace(c: char) {
    || ('\U{0009}' <= c <= '\U{000D}')
    || c == '\U{0020}' || c == '\U{00A0}' || c == '\U{1680}'
    || ('\U{2000}' <= c <= '\U{200A}')
    || c == '\U{2028}' || c == '\U{2029}' || c == '\U{202F}' || c == '\U{205F}'
    || c == '\U{3000}' || c == '\U{FEFF}'
  }

  /** A character of the class `[^\s@]`. */
  predicate PlainChar(c: char) {
    !IsJsWhitespace(c) && c != '@'
  }

  predicate AllPlain(s: string) {
    forall k | 0 <= k < |s| :: PlainChar(s[k])
  }

  /** What the regular expression accepts, read as a shape: a position `at`
   *  holding '@' with at least one character before it, a position `dot`
   *  holding '.' with at least one character between '@' and it and at least
   *  one character after it, and every character other than the '@' in
   *  `[^\s@]`. */
  ghost predicate EmailShape(email: string) {
    exists at: nat, dot: nat :: ShapeAt(email, at, dot)
  }

  ghost predicate ShapeAt(email: string, at: nat, dot: nat) {
    && 0 < at && at + 1 < dot && dot + 1 < |email|
    && email[at] == '@' && email[dot] == '.'
    && PlainExcept(email, at)
  }

  /** Every character except the one at `at` is in `[^\s@]`. */
  ghost predicate PlainExcept(s: string, at: nat) {
    forall k | 0 <= k < |s| && k != at :: PlainChar(s[k])
  }

  /** Index of the first `c` in `s`, or |s| when there is none. */
  function IndexOf(s: string, c: char): (i: nat)
    ensures i <= |s|
    ensures i < |s| ==> s[i] == c
    ensures forall k | 0 <= k < i :: s[k] != c
    decreases |s|
  {
    if s == [] then 0
    else if s[0] == c then 0
    else 1 + IndexOf(s[1..], c)
  }

  /** The part after the '@', `[^\s@]+\.[^\s@]+`. */
  predicate DomainShape(d: string) {
    && |d| >= 3
    && AllPlain(d)
    && '.' in d[1..|d| - 1]
  }

  /** The regular-expression test, split at the first '@'. */
  function ValidateEmail(email: string): (ok: bool)
    ensures ok <==> EmailShape(email)
  {
    SplitMatchesShape(email);
    var at := IndexOf(email, '@');
    0 < at < |email| && AllPlain(email[..at]) && DomainShape(email[at + 1..])
  }

  /** Splitting at the first '@' decides the shape. */
  lemma SplitMatchesShape(email: string)
    ensures var at := IndexOf(email, '@');
      (0 < at < |email| && AllPlain(email[..at]) && DomainShape(email[at + 1..])) <==> EmailShape(email)
  {
    var at := IndexOf(email, '@');
    if 0 < at < |email| && AllPlain(email[..at]) && DomainShape(email[at + 1..]) {
      EmailShapeFromSplit(email, at);
    }
    if EmailShape(email) {
      SplitFromEmailShape(email);
    }
  }

  lemma EmailShapeFromSplit(email: string, at: nat)
    requires 0 < at < |email| && email[at] == '@'
    requires AllPlain(email[..at]) && DomainShape(email[at + 1..])
    ensures EmailShape(email)
  {
    var d := email[at + 1..];
    var j :| 0 <= j < |d[1..|d| - 1]| && d[1..|d| - 1][j] == '.';
    var dot := at + 2 + j;
    assert email[dot] == '.';
    forall k | 0 <= k < |email| && k != at
      ensures PlainChar(email[k])
    {
      if k < at {
        assert email[k] == email[..at][k];
      } else {
        assert email[k] == d[k - at - 1];
      }
    }
    assert ShapeAt(email, at, dot);
  }

  lemma SplitFromEmailShape(email: string)
    requires EmailShape(email)
    ensures var at := IndexOf(email, '@');
      0 < at < |email| && AllPlain(email[..at]) && DomainShape(email[at + 1..])
  {
    var at: nat, dot: nat :| ShapeAt(email, at, dot);
    FirstAtIsTheAt(email, at);
    PlainBefore(email, at);
    PlainAfter(email, at);
    DotInDomain(email, at, dot);
  }

  lemma DotInDomain(email: string, at: nat, dot: nat)
    requires at + 1 < dot && dot + 1 < |email| && email[dot] == '.'
    ensures var d := email[at + 1..]; |d| >= 3 && '.' in d[1..|d| - 1]
  {
    var d := email[at + 1..];
    assert |d| == |email| - at - 1;
    assert d[1..|d| - 1][dot - at - 2] == email[dot];
  }

  lemma PlainAfter(email: string, at: nat)
    requires at < |email| && PlainExcept(email, at)
    ensures AllPlain(email[at + 1..])
  {
    var d := email[at + 1..];
    forall k | 0 <= k < |d| ensures PlainChar(d[k]) {
      assert d[k] == email[at + 1 + k];
    }
  }

  lemma PlainBefore(email: string, at: nat)
    requires at < |email| && PlainExcept(email, at)
    ensures AllPlain(email[..at])
  {
    forall k | 0 <= k < at ensures PlainChar(email[..at][k]) {
      assert email[..at][k] == email[k];
    }
  }

  /** When every character but the one at `at` is plain, the '@' there is the
   *  first one. */
  lemma FirstAtIsTheAt(email: string, at: nat)
    requires at < |email| && email[at] == '@'
    requires PlainExcept(email, at)
    ensures IndexOf(email, '@') == at
  {
    var first := IndexOf(email, '@');
    if first < at {
      assert !PlainChar(email[first]);
    }
  }

  /** Number of occurrences of `c` in `s`. */
  function Occurrences(s: string, c: char): nat
    decreases |s|
  {
    if s == [] then 0 else (if s[0] == c then 1 else 0) + Occurrences(s[1..], c)
  }

  lemma {:induction false} OccurrencesAppend(a: string, b: string, c: char)
    ensures Occurrences(a + b, c) == Occurrences(a, c) + Occurrences(b, c)
    decreases |a|
  {
    if a == [] {
      assert a + b == b;
    } else {
      assert (a + b)[1..] == a[1..] + b;
      OccurrencesAppend(a[1..], b, c);
    }
  }

  lemma {:induction false} NoAtInPlain(s: string)
    requires AllPlain(s)
    ensures Occurrences(s, '@') == 0
    decreases |s|
  {
    if s != [] {
      assert PlainChar(s[0]);
      NoAtInPlain(s[1..]);
    }
  }

  /** A well-shaped e-mail address holds exactly one '@'. */
  lemma ValidEmailHasOneAt(email: string)
    requires ValidateEmail(email)
    ensures Occurrences(email, '@') == 1
  {
    SplitFromEmailShape(email);
    var at := IndexOf(email, '@');
    var local, domain := email[..at], email[at + 1..];
    assert email == local + ([email[at]] + domain);
    NoAtInPlain(local);
    NoAtInPlain(domain);
    OccurrencesAppend([email[at]], domain, '@');
    OccurrencesAppend(local, [email[at]] + domain, '@');
  }

  // ---------------------------------------------------------------------
  // validatePassword
  // ---------------------------------------------------------------------

  const PasswordTooShort := "Password must be at least 8 characters long"
  const MinPasswordLength := 8

  /** JavaScript's `String.length`: UTF-16 code units, so a character
   *  outside the Basic Multilingual Plane counts twice. */
  function Utf16Length(s: string): nat
    decreases |s|
  {
    if s == [] then 0 else (if s[0] as int > 0xFFFF then 2 else 1) + Utf16Length(s[1..])
  }

  lemma {:induction false} Utf16LengthBounds(s: string)
    ensures |s| <= Utf16Length(s) <= 2 * |s|
    decreases |s|
  {
    if s != [] {
      Utf16LengthBounds(s[1..]);
    }
  }

  function ValidatePassword(password: string): (r: Option<string>)
    ensures r == None <==> Utf16Length(password) >= MinPasswordLength
    ensures r == None || r == Some(PasswordTooShort)
  {
    if Utf16Length(password) < MinPasswordLength then Some(PasswordTooShort) else None
  }

  /** Eight characters always pass; fewer than four never do. */
  lemma PasswordLengthInCharacters(password: string)
    ensures |password| >= 8 ==> ValidatePassword(password) == None
    ensures |password| < 4 ==> ValidatePassword(password) == Some(PasswordTooShort)
  {
    Utf16LengthBounds(password);
  }

  // ---------------------------------------------------------------------
  // validateDateRange and calculateLeaveDays
  // ---------------------------------------------------------------------

  /** A date argument: the empty string, a string that does not parse,
   *  or the day number a well-formed date string names. */
  datatype DateInput = Blank | Unparsable | Day(n: int)

  const BothDatesRequired := "Both dates are required"
  const StartAfterEnd := "Start date must be before end date"

  function ValidateDateRange(startDate: DateInput, endDate: DateInput): (r: Option<string>)
    ensures r == Some(BothDatesRequired) <==> startDate == Blank || endDate == Blank
    ensures r == Some(StartAfterEnd) <==>
      startDate != Blank && endDate != Blank && startDate.Day? && endDate.Day? && startDate.n > endDate.n
    ensures r == None || r == Some(BothDatesRequired) || r == Some(StartAfterEnd)
  {
    if startDate == Blank || endDate == Blank then Some(BothDatesRequired)
    // An "Invalid Date" compares false with anything, so it passes.
    else if startDate.Day? && endDate.Day? && startDate.n > endDate.n then Some(StartAfterEnd)
    else None
  }

  /** Two well-formed dates are accepted exactly when they are in order;
   *  equal dates are accepted. */
  lemma DateRangeOrder(s: int, e: int)
    ensures ValidateDateRange(Day(s), Day(e)) == None <==> s <= e
    ensures ValidateDateRange(Day(s), Day(s)) == None
  {
  }

  /** A date string that does not parse is not caught by the range check. */
  lemma UnparsableDatePasses(d: DateInput)
    requires d != Blank
    ensures ValidateDateRange(Unparsable, d) == None
    ensures ValidateDateRange(d, Unparsable) == None
  {
  }

  /** The inclusive number of leave days between two day numbers, in either
   *  order (the source takes the absolute difference). */
  function LeaveDays(startDay: int, endDay: int): (days: nat)
    ensures days >= 1
    ensures startDay <= endDay ==> days == endDay - startDay + 1
    ensures endDay < startDay ==> days == startDay - endDay + 1
  {
    (if endDay >= startDay then endDay - startDay else startDay - endDay) + 1
  }

  lemma SameDayIsOneDay(d: int)
    ensures LeaveDays(d, d) == 1
  {
  }

  lemma LeaveDaysSymmetric(s: int, e: int)
    ensures LeaveDays(s, e) == LeaveDays(e, s)
  {
  }

  /** Both ends of the range are leave days: extending the range by one day
   *  adds one leave day. */
  lemma LeaveDaysExtend(s: int, e: int)
    requires s <= e
    ensures LeaveDays(s, e + 1) == LeaveDays(s, e) + 1
  {
  }

  /** The result of calculateLeaveDays: a count, or NaN when a date does not
   *  parse. */
  datatype DayCount = Days(n: nat) | NaN

  function CalculateLeaveDays(startDate: DateInput, endDate: DateInput): (r: DayCount)
    ensures r.Days? <==> startDate.Day? && endDate.Day?
    ensures r.Days? ==> r.n >= 1 && r.n == LeaveDays(startDate.n, endDate.n)
  {
    if startDate.Day? && endDate.Day? then Days(LeaveDays(startDate.n, endDate.n)) else NaN
  }

  /** The source's arithmetic, on the millisecond timestamps of midnight. */
  const MsPerDay := 1000 * 60 * 60 * 24

  /** `Math.ceil(a / b)` for a non-negative `a` and positive `b`. */
  function CeilDiv(a: nat, b: nat): nat
    requires b > 0
  {
    (a + b - 1) / b
  }

  function LeaveDaysFromMillis(startMs: int, endMs: int): nat {
    CeilDiv(if endMs >= startMs then endMs - startMs else startMs - endMs, MsPerDay) + 1
  }

  /** For whole-day dates the millisecond computation equals the day-number
   *  count the model uses. */
  lemma MillisAgreeWithDays(s: int, e: int)
    ensures LeaveDaysFromMillis(s * MsPerDay, e * MsPerDay) == LeaveDays(s, e)
  {
  }

  /** Day 0 to day 4 counts five leave days; the reversed range is refused
   *  and the ordered one accepted. */
  lemma CalculatorExamples()
    ensures CalculateLeaveDays(Day(0), Day(4)) == Days(5)
    ensures ValidateDateRange(Day(4), Day(0)) == Some(StartAfterEnd)
    ensures ValidateDateRange(Day(0), Day(4)) == None
  {
  }
}
