/** Resolution of an entry's `timeZone` string into the zone its local date is
    shown in: a named zone when the zone database knows the name, otherwise a
    fixed offset parsed from `UTC+hh`, `GMT-hhmm` and the like, otherwise none. */
module Timezone {
  import opened Wrappers

  /** An absolute instant (seconds since the epoch) and the UTC offset, in
      minutes, of the wall clock it is expressed in. */
  datatype Timestamp = Timestamp(instant: int, offsetMinutes: int)

  datatype Zone = Named(name: string) | Fixed(minutes: int)

  /** The `ValueError` pytz raises for a fixed offset of a whole day or more. */
  datatype ZoneError = OffsetTooLarge(minutes: int)

  const MinutesPerDay := 1440

  predicate IsDigit(c: char) {
    '0' <= c <= '9'
  }

  function DigitValue(c: char): nat
    requires IsDigit(c)
  {
    c as int - '0' as int
  }

  predicate AllDigits(s: string) {
    forall i :: 0 <= i < |s| ==> IsDigit(s[i])
  }

  predicate IsSign(c: char) {
    c == '+' || c == '-'
  }

  function SignOf(c: char): int {
    if c == '-' then -1 else 1
  }

  /** ASCII lower-casing, which is all `re.IGNORECASE` changes for the letters of
      `UTC` and `GMT`. */
  function Lower(c: char): char {
    if 'A' <= c <= 'Z' then (c as int - 'A' as int + 'a' as int) as char else c
  }

  /** The `(UTC|GMT)` group, matched case-insensitively. */
  predicate IsZoneWord(w: string) {
    |w| == 3 && ([Lower(w[0]), Lower(w[1]), Lower(w[2])] == "utc" || [Lower(w[0]), Lower(w[1]), Lower(w[2])] == "gmt")
  }

  /** The pattern `(UTC|GMT)[-+]\d{2,4}` anchored at the start of `s`: the
      declarative reading of when the match succeeds. */
  predicate MatchesOffsetPattern(s: string) {
    |s| >= 6 && IsZoneWord(s[..3]) && IsSign(s[3]) && IsDigit(s[4]) && IsDigit(s[5])
  }

  /** Length of the greedy `\d{0,limit}` run at the start of `s`. */
  function DigitRun(s: string, limit: nat): (n: nat)
    ensures n <= limit && n <= |s|
    ensures AllDigits(s[..n])
    ensures n < limit && n < |s| ==> !IsDigit(s[n])
  {
    if limit == 0 || |s| == 0 || !IsDigit(s[0]) then 0
    else
      var n := 1 + DigitRun(s[1..], limit - 1);
      assert s[..n] == [s[0]] + s[1..][..n - 1];
      n
  }

  /** The value of a string of decimal digits. */
  function Decimal(ds: string): nat
    requires AllDigits(ds)
  {
    if |ds| == 0 then 0 else Decimal(ds[..|ds| - 1]) * 10 + DigitValue(ds[|ds| - 1])
  }

  /** Python's `int()` on a sign followed by decimal digits. */
  function SignedInt(g: string): int
    requires |g| >= 1 && IsSign(g[0]) && AllDigits(g[1..])
  {
    SignOf(g[0]) * Decimal(g[1..])
  }

  /** The offset, in minutes, computed from a `timeZone` string that the zone
      database does not know, from the sign and its 2 to 4 digits: the signed
      number, times sixty when there are exactly two digits. Only a two-digit offset
      is read as hours; three or four digits are taken as minutes verbatim. */
  function ParseOffset(s: string): (r: Option<int>)
    ensures r.Some? <==> MatchesOffsetPattern(s)
  {
    if |s| < 4 || !IsZoneWord(s[..3]) || !IsSign(s[3]) then None
    else
      var n := DigitRun(s[4..], 4);
      if n < 2 then None
      else
        var group := s[3..4 + n];
        assert group[1..] == s[4..][..n];
        Some(SignedInt(group) * (if |group| == 3 then 60 else 1))
  }

  /** The greedy run stops exactly at the end of a digit string that is
      followed by a non-digit or that reaches the limit. */
  lemma {:induction false} DigitRunOf(ds: string, rest: string, limit: nat)
    requires AllDigits(ds) && |ds| <= limit
    requires |ds| < limit ==> |rest| == 0 || !IsDigit(rest[0])
    ensures DigitRun(ds + rest, limit) == |ds|
  {
    if |ds| > 0 {
      assert (ds + rest)[1..] == ds[1..] + rest;
      DigitRunOf(ds[1..], rest, limit - 1);
    }
  }

  /** Once the digit run after the sign is known, the offset is the signed
      value of those digits, scaled to minutes only for two digits. */
  lemma ParseOffsetOfRun(s: string, n: nat)
    requires |s| >= 4 && IsZoneWord(s[..3]) && IsSign(s[3])
    requires n >= 2 && DigitRun(s[4..], 4) == n
    ensures 4 + n <= |s| && AllDigits(s[4..4 + n])
    ensures ParseOffset(s) == Some(SignOf(s[3]) * Decimal(s[4..4 + n]) * (if n == 2 then 60 else 1))
  {
    var group := s[3..4 + n];
    assert group[1..] == s[4..][..n] == s[4..4 + n];
  }

  /** A sign and exactly two digits are hours: `GMT-05` is -300 minutes. */
  lemma TwoDigitOffsetIsHours(w: string, sign: char, d1: char, d2: char, rest: string)
    requires IsZoneWord(w) && IsSign(sign) && IsDigit(d1) && IsDigit(d2)
    requires |rest| == 0 || !IsDigit(rest[0])
    ensures ParseOffset(w + [sign, d1, d2] + rest) == Some(SignOf(sign) * (10 * DigitValue(d1) + DigitValue(d2)) * 60)
  {
    var s := w + [sign, d1, d2] + rest;
    assert s[..3] == w;
    assert s[3] == sign;
    assert s[4..] == [d1, d2] + rest;
    DigitRunOf([d1, d2], rest, 4);
    ParseOffsetOfRun(s, 2);
    assert s[4..6] == [d1, d2];
    assert [d1, d2][..1] == [d1];
    assert [d1][..0] == [];
    assert Decimal([d1]) == DigitValue(d1);
    assert Decimal([d1, d2]) == 10 * DigitValue(d1) + DigitValue(d2);
  }

  /** A sign and three or four digits are minutes, unscaled: `UTC+0100` is 100
      minutes, not an hour. Anything after the fourth digit is ignored. */
  lemma LongOffsetIsLiteralMinutes(w: string, sign: char, ds: string, rest: string)
    requires IsZoneWord(w) && IsSign(sign) && AllDigits(ds)
    requires |ds| == 3 || |ds| == 4
    requires |ds| == 3 ==> |rest| == 0 || !IsDigit(rest[0])
    ensures ParseOffset(w + [sign] + ds + rest) == Some(SignOf(sign) * Decimal(ds))
  {
    var s := w + [sign] + ds + rest;
    assert s[..3] == w;
    assert s[3] == sign;
    assert s[4..] == ds + rest;
    DigitRunOf(ds, rest, 4);
    ParseOffsetOfRun(s, |ds|);
    assert s[4..4 + |ds|] == ds;
  }

  /** Two-digit offsets are hours; characters after them (`:30`) are ignored. */
  lemma HourOffsetExamples()
    ensures ParseOffset("GMT-05") == Some(-300)
    ensures ParseOffset("utc+05:30") == Some(300)
  {
    TwoDigitOffsetIsHours("GMT", '-', '0', '5', "");
    assert "GMT-05" == "GMT" + ['-', '0', '5'] + "";
    TwoDigitOffsetIsHours("utc", '+', '0', '5', ":30");
    assert "utc+05:30" == "utc" + ['+', '0', '5'] + ":30";
  }

  /** Appending a digit multiplies the value so far by ten. */
  lemma DecimalSnoc(ds: string, d: char)
    requires AllDigits(ds) && IsDigit(d)
    ensures AllDigits(ds + [d]) && Decimal(ds + [d]) == 10 * Decimal(ds) + DigitValue(d)
  {
    assert (ds + [d])[..|ds|] == ds;
  }

  /** `UTC+0100` gives 100 minutes, not one hour, although the script's own
      comment promises to interpret such names correctly. */
  lemma FourDigitOffsetExample()
    ensures ParseOffset("UTC+0100") == Some(100)
  {
    var ds := "0100";
    assert Decimal(ds[..2]) == 1 by {
      DecimalSnoc("", '0');
      assert "" + ['0'] == "0";
      DecimalSnoc("0", '1');
      assert "0" + ['1'] == ds[..2];
    }
    assert Decimal(ds) == 100 by {
      DecimalSnoc(ds[..2], '0');
      assert ds[..2] + ['0'] == ds[..3];
      DecimalSnoc(ds[..3], '0');
      assert ds[..3] + ['0'] == ds;
    }
    LongOffsetIsLiteralMinutes("UTC", '+', ds, "");
    assert "UTC+0100" == "UTC" + ['+'] + ds + "";
  }

  /** `Gmt+530` gives 530 minutes: three digits are not split into hours. */
  lemma ThreeDigitOffsetExample()
    ensures ParseOffset("Gmt+530") == Some(530)
  {
    DecimalSnoc("", '5');
    DecimalSnoc("5", '3');
    DecimalSnoc("53", '0');
    LongOffsetIsLiteralMinutes("Gmt", '+', "530", "");
    assert "Gmt+530" == "Gmt" + ['+'] + "530" + "";
  }

  /** A single digit, or no offset at all, is not an offset string. */
  lemma NonOffsetExamples()
    ensures ParseOffset("UTC+5") == None
    ensures ParseOffset("CET") == None
  {
  }

  /** The zone an entry's `timeZone` resolves to: `Some(Named(..))` when the
      zone database knows the name, `Some(Fixed(..))` when the offset pattern
      matches, `None` otherwise. A parsed offset of a day or more makes
      `pytz.FixedOffset` raise, outside any handler. */
  function ResolveZone(name: string, isKnown: string -> bool): (r: Result<Option<Zone>, ZoneError>)
    ensures isKnown(name) ==> r == Success(Some(Named(name)))
    ensures !isKnown(name) && !MatchesOffsetPattern(name) ==> r == Success(None)
    ensures !isKnown(name) && MatchesOffsetPattern(name) ==>
              var m := ParseOffset(name).value;
              (r.Success? <==> -MinutesPerDay < m < MinutesPerDay) && (r.Success? ==> r.value == Some(Fixed(m)))
  {
    if isKnown(name) then Success(Some(Named(name)))
    else
      match ParseOffset(name)
      case Some(m) => if -MinutesPerDay < m < MinutesPerDay then Success(Some(Fixed(m))) else Failure(OffsetTooLarge(m))
      case None => Success(None)
  }

  /** The creation date moved into the resolved zone, or kept as it is when
      no zone was resolved. The instant never
      changes; only the wall-clock offset does. `zoneOffset` stands for the
      zone database: the offset of a named zone at an instant. */
  function LocalDate(createDate: Timestamp, tz: Option<Zone>, zoneOffset: (string, int) -> int): (r: Timestamp)
    ensures r.instant == createDate.instant
    ensures tz.None? ==> r == createDate
    ensures tz.Some? && tz.value.Fixed? ==> r.offsetMinutes == tz.value.minutes
    ensures tz.Some? && tz.value.Named? ==> r.offsetMinutes == zoneOffset(tz.value.name, createDate.instant)
  {
    match tz
    case None => createDate
    case Some(Named(n)) => Timestamp(createDate.instant, zoneOffset(n, createDate.instant))
    case Some(Fixed(m)) => Timestamp(createDate.instant, m)
  }

  /** A `timeZone` that is neither a known zone nor an offset string raises
      nothing and leaves the local date equal to the creation date. */
  lemma UnknownZoneFallsBack(name: string, isKnown: string -> bool, zoneOffset: (string, int) -> int, createDate: Timestamp)
    requires !isKnown(name) && !MatchesOffsetPattern(name)
    ensures ResolveZone(name, isKnown).Success?
    ensures LocalDate(createDate, ResolveZone(name, isKnown).value, zoneOffset) == createDate
  {
  }
}
