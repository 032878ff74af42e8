/**
 * The deadline parser: calendar dates, the ISO format written out, the other `strptime`
 * formats as opaque partial parsers tried in order, and the regular-expression fallback
 * for inputs such as "31st January 2026".
 */
module Dates {
  import opened Wrappers
  import opened Text

  /** A naive calendar date, as `datetime.date` holds it. */
  datatype Date = Date(year: int, month: int, day: int)

  predicate IsLeapYear(y: int) {
    y % 4 == 0 && (y % 100 != 0 || y % 400 == 0)
  }

  function DaysInMonth(y: int, m: int): (n: int)
    requires 1 <= m <= 12
    ensures 28 <= n <= 31
    ensures n == 29 <==> m == 2 && IsLeapYear(y)
  {
    if m == 2 then (if IsLeapYear(y) then 29 else 28)
    else if m == 4 || m == 6 || m == 9 || m == 11 then 30
    else 31
  }

  /** What `datetime.date(y, m, d)` accepts: years 1 to 9999 and a day that exists in that month. */
  predicate ValidDate(d: Date) {
    1 <= d.year <= 9999 && 1 <= d.month <= 12 && 1 <= d.day <= DaysInMonth(d.year, d.month)
  }

  /** `datetime.date(y, m, d)`, whose ValueError the parser turns into `None`. */
  function MakeDate(y: int, m: int, d: int): (r: Option<Date>)
    ensures r.Some? <==> ValidDate(Date(y, m, d))
    ensures r.Some? ==> r.value == Date(y, m, d)
  {
    var date := Date(y, m, d);
    if ValidDate(date) then Some(date) else None
  }

  /** Strict order of dates, as Python compares `date` objects. */
  predicate Before(a: Date, b: Date) {
    a.year < b.year || (a.year == b.year && (a.month < b.month || (a.month == b.month && a.day < b.day)))
  }

  /** `date + timedelta(days=1)`; `None` where Python raises OverflowError (after 9999-12-31). */
  function NextDay(d: Date): (r: Option<Date>)
    requires ValidDate(d)
    ensures r.None? <==> d == Date(9999, 12, 31)
    ensures r.Some? ==> ValidDate(r.value) && Before(d, r.value)
    ensures r.Some? ==> forall e :: ValidDate(e) && Before(d, e) ==> !Before(e, r.value)
  {
    if d.day < DaysInMonth(d.year, d.month) then Some(Date(d.year, d.month, d.day + 1))
    else if d.month < 12 then Some(Date(d.year, d.month + 1, 1))
    else if d.year < 9999 then Some(Date(d.year + 1, 1, 1))
    else None
  }

  // ---------------------------------------------------------------------------
  // Decimal digits

  predicate AllDigits(s: string) {
    forall i :: 0 <= i < |s| ==> IsDigit(s[i])
  }

  function DigitValue(c: char): (n: int)
    requires IsDigit(c)
    ensures 0 <= n <= 9
  {
    c as int - '0' as int
  }

  function DigitChar(n: int): (c: char)
    requires 0 <= n <= 9
    ensures IsDigit(c) && DigitValue(c) == n
  {
    ('0' as int + n) as char
  }

  /** `int(s)` for a string of decimal digits. */
  function DigitsValue(s: string): (n: nat)
    requires AllDigits(s)
  {
    if s == [] then 0 else DigitsValue(s[..|s| - 1]) * 10 + DigitValue(s[|s| - 1])
  }

  /** Two digits, zero-padded: `%02d`. */
  function Pad2(n: int): (s: string)
    requires 0 <= n <= 99
    ensures |s| == 2 && AllDigits(s) && DigitsValue(s) == n
  {
    var s := [DigitChar(n / 10), DigitChar(n % 10)];
    assert s[..1] == [s[0]] && [s[0]][..0] == [];
    assert DigitsValue(s[..1]) == n / 10;
    s
  }

  /** Four digits, zero-padded: `%04d`. */
  function Pad4(n: int): (s: string)
    requires 0 <= n <= 9999
    ensures |s| == 4 && AllDigits(s) && DigitsValue(s) == n
  {
    var s := [DigitChar(n / 1000), DigitChar(n / 100 % 10), DigitChar(n / 10 % 10), DigitChar(n % 10)];
    assert s[..3][..2] == s[..2] && s[..2][..1] == s[..1] && s[..1] == [s[0]];
    assert [s[0]][..0] == [];
    assert DigitsValue(s[..1]) == n / 1000;
    assert DigitsValue(s[..2]) == n / 100;
    assert DigitsValue(s[..3]) == n / 10;
    s
  }

  // ---------------------------------------------------------------------------
  // ISO `%Y-%m-%d`

  /** The strings `strptime`'s `%m` accepts: `1[0-2]|0[1-9]|[1-9]`. */
  predicate MonthToken(t: string) {
    (|t| == 1 && '1' <= t[0] <= '9')
    || (|t| == 2 && ((t[0] == '1' && '0' <= t[1] <= '2') || (t[0] == '0' && '1' <= t[1] <= '9')))
  }

  /** The strings `strptime`'s `%d` accepts in full: `3[01]|[12]\d|0[1-9]|[1-9]| [1-9]`. */
  predicate DayToken(t: string) {
    (|t| == 1 && '1' <= t[0] <= '9')
    || (|t| == 2 && ((t[0] == '3' && (t[1] == '0' || t[1] == '1'))
                     || ((t[0] == '1' || t[0] == '2') && IsDigit(t[1]))
                     || ((t[0] == '0' || t[0] == ' ') && '1' <= t[1] <= '9')))
  }

  function TokenValue(t: string): (n: int)
    requires DayToken(t) || MonthToken(t)
  {
    if |t| == 1 then DigitValue(t[0])
    else if t[0] == ' ' then DigitValue(t[1])
    else 10 * DigitValue(t[0]) + DigitValue(t[1])
  }

  /**
   * `strptime(s, '%Y-%m-%d').date()`: four digits, a dash, a month of one or two digits, a
   * dash and a day that runs to the end of the text; the date must exist.
   */
  function ParseIso(s: string): (r: Option<Date>)
    ensures r.Some? ==> ValidDate(r.value)
  {
    if |s| < 8 || !AllDigits(s[..4]) || s[4] != '-' then None
    else
      var rest := s[5..];
      var p := if rest[1] == '-' then 1 else 2;
      if rest[p] != '-' || !MonthToken(rest[..p]) || !DayToken(rest[p + 1..]) then None
      else MakeDate(DigitsValue(s[..4]), TokenValue(rest[..p]), TokenValue(rest[p + 1..]))
  }

  /** `date.isoformat()`: `YYYY-MM-DD`, zero-padded. */
  function FormatIso(d: Date): (s: string)
    requires ValidDate(d)
    ensures |s| == 10 && s[4] == '-' && s[7] == '-'
    ensures AllDigits(s[..4]) && AllDigits(s[5..7]) && AllDigits(s[8..])
    ensures DigitsValue(s[..4]) == d.year && DigitsValue(s[5..7]) == d.month && DigitsValue(s[8..]) == d.day
  {
    var s := Pad4(d.year) + "-" + Pad2(d.month) + "-" + Pad2(d.day);
    assert s[..4] == Pad4(d.year) && s[5..7] == Pad2(d.month) && s[8..] == Pad2(d.day);
    s
  }

  lemma TwoDigitToken(t: string, n: int)
    requires |t| == 2 && AllDigits(t) && DigitsValue(t) == n && 1 <= n <= 31
    ensures DayToken(t) && TokenValue(t) == n
    ensures n <= 12 ==> MonthToken(t)
  {
    assert t[..1] == [t[0]];
    assert DigitsValue(t) == 10 * DigitValue(t[0]) + DigitValue(t[1]);
  }

  /** The ISO parser reads back every date that `isoformat` writes. */
  lemma {:induction false} IsoRoundTrip(d: Date)
    requires ValidDate(d)
    ensures ParseIso(FormatIso(d)) == Some(d)
  {
    var s := FormatIso(d);
    var y, m, dd := Pad4(d.year), Pad2(d.month), Pad2(d.day);
    assert s[..4] == y;
    var rest := s[5..];
    assert rest == m + "-" + dd;
    assert rest[..2] == m && rest[3..] == dd;
    TwoDigitToken(m, d.month);
    TwoDigitToken(dd, d.day);
  }

  // ---------------------------------------------------------------------------
  // The regular-expression fallback

  /** The month table: the twelve full names and eleven abbreviations ("may" is both). */
  const MonthTable: map<string, int> := map[
    "january" := 1, "february" := 2, "march" := 3, "april" := 4, "may" := 5, "june" := 6,
    "july" := 7, "august" := 8, "september" := 9, "october" := 10, "november" := 11, "december" := 12,
    "jan" := 1, "feb" := 2, "mar" := 3, "apr" := 4, "jun" := 6, "jul" := 7, "aug" := 8,
    "sep" := 9, "oct" := 10, "nov" := 11, "dec" := 12]

  /** `month_names.get(word.lower())` */
  function MonthNumber(word: string): (r: Option<int>)
    ensures r.Some? <==> Lower(word) in MonthTable
    ensures r.Some? ==> 1 <= r.value <= 12
  {
    var key := Lower(word);
    if key in MonthTable then Some(MonthTable[key]) else None
  }

  /** The end of the run of characters satisfying `p` that starts at `i`. */
  function RunEnd(s: string, i: nat, p: char -> bool): (j: nat)
    requires i <= |s|
    ensures i <= j <= |s|
    ensures forall k :: i <= k < j ==> p(s[k])
    ensures j == |s| || !p(s[j])
    decreases |s| - i
  {
    if i < |s| && p(s[i]) then RunEnd(s, i + 1, p) else i
  }

  /** The three groups of a match: day digits, month word, year digits. */
  datatype DateParts = DateParts(day: string, word: string, year: string)

  predicate IsOrdinal(t: string) {
    t == "st" || t == "nd" || t == "rd" || t == "th"
  }

  /**
   * The match of `(\d{1,2})(?:st|nd|rd|th)?\s+(\w+)\s+(\d{4})` anchored at `i`. The
   * backtracking has at most one way through: two digits are taken when there are two, the
   * suffix when it is there, and each `\s+` and `\w+` must take its whole run, since the
   * next item cannot start with a character of the same class.
   */
  function MatchAt(s: string, i: nat): (r: Option<DateParts>)
    requires i <= |s|
    ensures r.Some? ==>
      (1 <= |r.value.day| <= 2 && AllDigits(r.value.day) && StartsWith(s[i..], r.value.day)
       && |r.value.word| >= 1 && (forall k :: 0 <= k < |r.value.word| ==> IsWordChar(r.value.word[k]))
       && |r.value.year| == 4 && AllDigits(r.value.year))
  {
    if i >= |s| || !IsDigit(s[i]) then None
    else
      var j := if i + 1 < |s| && IsDigit(s[i + 1]) then i + 2 else i + 1;
      var k := if j + 2 <= |s| && IsOrdinal(s[j..j + 2]) then j + 2 else j;
      var k2 := RunEnd(s, k, IsSpace);
      var k3 := RunEnd(s, k2, IsWordChar);
      var k4 := RunEnd(s, k3, IsSpace);
      if k2 == k || k3 == k2 || k4 == k3 || k4 + 4 > |s| || !AllDigits(s[k4..k4 + 4]) then None
      else
        assert s[i..][..j - i] == s[i..j];
        Some(DateParts(s[i..j], s[k2..k3], s[k4..k4 + 4]))
  }

  /**
   * The pattern read as a regular expression, independently of how `MatchAt` searches:
   * the digits `s[i..j]`, an optional suffix `s[j..k]`, whitespace `s[k..k2]`, the word
   * `s[k2..k3]`, whitespace `s[k3..k4]` and four digits from `k4`.
   */
  predicate Pattern(s: string, i: nat, j: nat, k: nat, k2: nat, k3: nat, k4: nat) {
    i < j <= i + 2 && j <= k < k2 < k3 < k4 && k4 + 4 <= |s|
    && AllDigits(s[i..j])
    && (k == j || (k == j + 2 && IsOrdinal(s[j..k])))
    && (forall q :: k <= q < k2 ==> IsSpace(s[q]))
    && (forall q :: k2 <= q < k3 ==> IsWordChar(s[q]))
    && (forall q :: k3 <= q < k4 ==> IsSpace(s[q]))
    && AllDigits(s[k4..k4 + 4])
  }

  /** Every match `MatchAt` reports is a way of reading the pattern at `i`, with its groups cut from the text. */
  lemma MatchAtSound(s: string, i: nat)
    requires i <= |s| && MatchAt(s, i).Some?
    ensures exists j: nat, k: nat, k2: nat, k3: nat, k4: nat ::
      (Pattern(s, i, j, k, k2, k3, k4) && MatchAt(s, i).value == DateParts(s[i..j], s[k2..k3], s[k4..k4 + 4]))
  {
    var j := if i + 1 < |s| && IsDigit(s[i + 1]) then i + 2 else i + 1;
    var k := if j + 2 <= |s| && IsOrdinal(s[j..j + 2]) then j + 2 else j;
    var k2 := RunEnd(s, k, IsSpace);
    var k3 := RunEnd(s, k2, IsWordChar);
    var k4 := RunEnd(s, k3, IsSpace);
    MatchAtSteps(s, i, j, k, k2, k3, k4);
    assert AllDigits(s[i..j]) by {
      assert IsDigit(s[i]) && (j == i + 2 ==> IsDigit(s[i + 1]));
    }
    assert Pattern(s, i, j, k, k2, k3, k4);
  }

  /** What `MatchAt` reporting a match says about each of its steps. */
  lemma MatchAtSteps(s: string, i: nat, j: nat, k: nat, k2: nat, k3: nat, k4: nat)
    requires i <= |s| && MatchAt(s, i).Some?
    requires j == if i + 1 < |s| && IsDigit(s[i + 1]) then i + 2 else i + 1
    requires k == if j + 2 <= |s| && IsOrdinal(s[j..j + 2]) then j + 2 else j
    requires k2 == RunEnd(s, k, IsSpace) && k3 == RunEnd(s, k2, IsWordChar) && k4 == RunEnd(s, k3, IsSpace)
    ensures i < |s| && IsDigit(s[i])
    ensures k < k2 < k3 < k4 && k4 + 4 <= |s| && AllDigits(s[k4..k4 + 4])
    ensures MatchAt(s, i).value == DateParts(s[i..j], s[k2..k3], s[k4..k4 + 4])
  {
  }

  /**
   * Every way of reading the pattern at `i` is the one `MatchAt` reports: the regular
   * expression matches there exactly when `MatchAt` does, and with the same groups.
   */
  lemma MatchAtComplete(s: string, i: nat, j: nat, k: nat, k2: nat, k3: nat, k4: nat)
    requires Pattern(s, i, j, k, k2, k3, k4)
    ensures MatchAt(s, i) == Some(DateParts(s[i..j], s[k2..k3], s[k4..k4 + 4]))
  {
    assert IsDigit(s[i]) by { assert s[i..j][0] == s[i]; }
    var j' := if i + 1 < |s| && IsDigit(s[i + 1]) then i + 2 else i + 1;
    if j == i + 2 {
      assert s[i..j][1] == s[i + 1];
    } else {
      assert !IsDigit(s[i + 1]) by {
        if k == j { assert IsSpace(s[k]); } else { assert s[j..k][0] == s[j]; }
      }
    }
    assert j' == j;
    var k' := if j + 2 <= |s| && IsOrdinal(s[j..j + 2]) then j + 2 else j;
    if k == j {
      assert IsSpace(s[k]);
      assert !IsOrdinal(s[j..j + 2]) by {
        if j + 2 <= |s| { assert s[j..j + 2][0] == s[j]; }
      }
    }
    assert k' == k;
    RunEndIs(s, k, k2, IsSpace);
    RunEndIs(s, k2, k3, IsWordChar);
    assert IsDigit(s[k4]) by { assert s[k4..k4 + 4][0] == s[k4]; }
    RunEndIs(s, k3, k4, IsSpace);
    MatchAtFrom(s, i, j, k, k2, k3, k4);
  }

  /** `MatchAt` once each of its steps is known to stop where given. */
  lemma MatchAtFrom(s: string, i: nat, j: nat, k: nat, k2: nat, k3: nat, k4: nat)
    requires i < j <= k <= |s| && IsDigit(s[i])
    requires j == if i + 1 < |s| && IsDigit(s[i + 1]) then i + 2 else i + 1
    requires k == if j + 2 <= |s| && IsOrdinal(s[j..j + 2]) then j + 2 else j
    requires RunEnd(s, k, IsSpace) == k2 && RunEnd(s, k2, IsWordChar) == k3 && RunEnd(s, k3, IsSpace) == k4
    requires k < k2 < k3 < k4 && k4 + 4 <= |s| && AllDigits(s[k4..k4 + 4])
    ensures MatchAt(s, i) == Some(DateParts(s[i..j], s[k2..k3], s[k4..k4 + 4]))
  {
  }

  /** A match found by the search: where it starts and its groups. */
  datatype Found = Found(pos: nat, parts: DateParts)

  /** `re.search`: the match at the leftmost position where there is one. */
  function SearchFrom(s: string, i: nat): (r: Option<Found>)
    requires i <= |s|
    ensures r.Some? ==> i <= r.value.pos <= |s| && MatchAt(s, r.value.pos) == Some(r.value.parts)
    ensures r.Some? ==> forall q :: i <= q < r.value.pos ==> MatchAt(s, q).None?
    ensures r.None? ==> forall q :: i <= q <= |s| ==> MatchAt(s, q).None?
    decreases |s| - i
  {
    match MatchAt(s, i)
    case Some(parts) => Some(Found(i, parts))
    case None => if i == |s| then None else SearchFrom(s, i + 1)
  }

  /**
   * The fallback: the first match of the pattern, its word looked up in the month table,
   * and the date built from the three parts; `None` when any step fails.
   */
  function FallbackParse(s: string): (r: Option<Date>)
    ensures r.Some? ==> ValidDate(r.value)
    ensures r.Some? <==> (SearchFrom(s, 0).Some? && MonthNumber(SearchFrom(s, 0).value.parts.word).Some?
      && ValidDate(Date(DigitsValue(SearchFrom(s, 0).value.parts.year),
                        MonthNumber(SearchFrom(s, 0).value.parts.word).value,
                        DigitsValue(SearchFrom(s, 0).value.parts.day))))
    ensures r.Some? ==> r.value == Date(DigitsValue(SearchFrom(s, 0).value.parts.year),
                                        MonthNumber(SearchFrom(s, 0).value.parts.word).value,
                                        DigitsValue(SearchFrom(s, 0).value.parts.day))
  {
    match SearchFrom(s, 0)
    case None => None
    case Some(Found(_, parts)) =>
      match MonthNumber(parts.word)
      case None => None
      case Some(m) => MakeDate(DigitsValue(parts.year), m, DigitsValue(parts.day))
  }

  // ---------------------------------------------------------------------------
  // parse_deadline

  /** A `strptime` format as a partial parser. */
  type Parser = string -> Option<Date>

  /** `strptime` only ever produces dates that exist. */
  ghost predicate SoundParsers(parsers: seq<Parser>) {
    forall i, t :: 0 <= i < |parsers| && parsers[i](t).Some? ==> ValidDate(parsers[i](t).value)
  }

  /** The result of the first parser, in order, that accepts `s`. */
  function FirstMatch(parsers: seq<Parser>, s: string): (r: Option<Date>)
    ensures r.None? <==> forall i :: 0 <= i < |parsers| ==> parsers[i](s).None?
    ensures r.Some? ==> exists i :: 0 <= i < |parsers| && parsers[i](s) == r
                                   && forall j :: 0 <= j < i ==> parsers[j](s).None?
  {
    if parsers == [] then None
    else if parsers[0](s).Some? then parsers[0](s)
    else
      var r := FirstMatch(parsers[1..], s);
      assert forall i :: 1 <= i < |parsers| ==> parsers[i] == parsers[1..][i - 1];
      r
  }

  /**
   * The format list: ISO first, then `%d/%m/%Y`, `%m/%d/%Y`, `%d %B %Y`, `%d %b %Y`,
   * `%B %d, %Y` and `%b %d, %Y`, which are given as opaque parsers.
   */
  function Formats(later: seq<Parser>): seq<Parser> {
    [ParseIso] + later
  }

  /**
   * `parse_deadline`: the first format that parses, otherwise the fallback, otherwise
   * `None`. It is a total function: it never raises.
   */
  function ParseDeadline(s: string, later: seq<Parser>): (r: Option<Date>)
    ensures (exists i :: 0 <= i < |Formats(later)| && Formats(later)[i](s).Some?) ==>
      exists i :: 0 <= i < |Formats(later)| && Formats(later)[i](s) == r
                  && forall j :: 0 <= j < i ==> Formats(later)[j](s).None?
    ensures (forall i :: 0 <= i < |Formats(later)| ==> Formats(later)[i](s).None?) ==> r == FallbackParse(s)
  {
    var first := FirstMatch(Formats(later), s);
    if first.Some? then first else FallbackParse(s)
  }

  /** A well-formed ISO date wins, whatever the later formats would say. */
  lemma {:induction false} IsoWins(s: string, later: seq<Parser>)
    requires ParseIso(s).Some?
    ensures ParseDeadline(s, later) == ParseIso(s)
  {
    assert Formats(later)[0] == ParseIso;
  }

  /** Whatever path it takes, the parser returns only dates that exist. */
  lemma {:induction false} ParseDeadlineValid(s: string, later: seq<Parser>)
    requires SoundParsers(later)
    ensures ParseDeadline(s, later).Some? ==> ValidDate(ParseDeadline(s, later).value)
  {
    var r := ParseDeadline(s, later);
    var fs := Formats(later);
    if r.Some? && exists i :: 0 <= i < |fs| && fs[i](s).Some? {
      var i :| 0 <= i < |fs| && fs[i](s) == r;
      if i > 0 {
        assert fs[i] == later[i - 1];
      }
    }
  }

  /** "2026-01-31" is 31 January 2026, ahead of every other format. */
  lemma IsoExample(later: seq<Parser>)
    ensures ParseDeadline("2026-01-31", later) == Some(Date(2026, 1, 31))
  {
    var d := Date(2026, 1, 31);
    IsoRoundTrip(d);
    assert FormatIso(d) == "2026-01-31";
    IsoWins("2026-01-31", later);
  }

  /** A run is determined by where it stops. */
  lemma {:induction false} RunEndIs(s: string, i: nat, j: nat, p: char -> bool)
    requires i <= j <= |s|
    requires forall k :: i <= k < j ==> p(s[k])
    requires j == |s| || !p(s[j])
    ensures RunEnd(s, i, p) == j
    decreases j - i
  {
    if i < j {
      RunEndIs(s, i + 1, j, p);
    }
  }

  /** A day with an ordinal suffix, one space, a word, one space and a year, read at position 0. */
  lemma OrdinalShape(s: string, w: nat)
    requires 6 + w + 4 <= |s| && w >= 1
    requires IsDigit(s[0]) && IsDigit(s[1]) && IsOrdinal(s[2..4]) && IsSpace(s[4])
    requires forall k :: 5 <= k < 5 + w ==> IsWordChar(s[k])
    requires IsSpace(s[5 + w]) && AllDigits(s[6 + w..10 + w])
    ensures MatchAt(s, 0) == Some(DateParts(s[0..2], s[5..5 + w], s[6 + w..10 + w]))
  {
    RunEndIs(s, 4, 5, IsSpace);
    RunEndIs(s, 5, 5 + w, IsWordChar);
    RunEndIs(s, 5 + w, 6 + w, IsSpace);
  }

  /** "31st January 2026" falls through to the regular expression and reads as 31 January 2026. */
  lemma FallbackExample(s: string)
    requires s == "31st January 2026"
    ensures FallbackParse(s) == Some(Date(2026, 1, 31))
  {
    ExampleMatch(s);
    ExampleParts();
  }

  /** The example's groups: "January" is month 1, and the digits read 31 and 2026. */
  lemma ExampleParts()
    ensures MonthNumber("January") == Some(1)
    ensures DigitsValue("31") == 31 && DigitsValue("2026") == 2026
  {
    assert Lower("January") == "january";
    assert "31"[..1] == "3";
    assert "2026"[..3] == "202" && "202"[..2] == "20" && "20"[..1] == "2";
  }

  /** The search finds the example's groups at position 0. */
  lemma ExampleMatch(s: string)
    requires s == "31st January 2026"
    ensures SearchFrom(s, 0) == Some(Found(0, DateParts("31", "January", "2026")))
  {
    OrdinalShape(s, 7);
    assert s[0..2] == "31" && s[5..12] == "January" && s[13..17] == "2026";
  }

  /** Text with no date in it gives `None` once no format accepts it: the parser signals failure rather than raising. */
  lemma NoDateExample(later: seq<Parser>)
    requires forall i :: 0 <= i < |later| ==> later[i]("not a date").None?
    ensures ParseDeadline("not a date", later).None?
  {
    var s := "not a date";
    assert ParseIso(s).None?;
    forall q | 0 <= q <= |s| ensures MatchAt(s, q).None? {
      assert q < |s| ==> !IsDigit(s[q]);
    }
    forall i | 0 <= i < |Formats(later)| ensures Formats(later)[i](s).None? {
      if i > 0 {
        assert Formats(later)[i] == later[i - 1];
      }
    }
  }
}
