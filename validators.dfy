/** The request body as the validation pipe sees it, and the string formats
    the DTO decorators check (`IsDateString`, `IsUUID('4')`). */
module Validators {
  import opened Results
  import opened Dates

  /** A JSON value of a request body; arrays and objects are all `JOther`. */
  datatype Json = JNull | JBool(flag: bool) | JNumber(number: int) | JString(text: string) | JOther

  type Body = map<string, Json>

  /** `IsOptional()`: the property may be left out or be `null`, and then no
      other decorator of that property is checked. */
  predicate Omitted(body: Body, key: string) {
    key !in body || body[key] == JNull
  }

  predicate IsDigit(c: char) {
    '0' <= c <= '9'
  }

  function DigitValue(c: char): (n: int)
    requires IsDigit(c)
    ensures 0 <= n < 10
  {
    c as int - '0' as int
  }

  function DigitChar(n: int): (c: char)
    requires 0 <= n < 10
    ensures IsDigit(c) && DigitValue(c) == n
  {
    ('0' as int + n) as char
  }

  /** The digits of `s[i..i+k]` read as a decimal number. */
  function Number(s: string, i: nat, k: nat): (n: int)
    requires i + k <= |s|
    requires forall j :: i <= j < i + k ==> IsDigit(s[j])
    ensures 0 <= n
    decreases k
  {
    if k == 0 then 0 else 10 * Number(s, i, k - 1) + DigitValue(s[i + k - 1])
  }

  /** The calendar dates a `YYYY-MM-DD` string can spell. */
  predicate Spellable(d: CalendarDate) {
    0 <= d.year <= 9999 && 1 <= d.month <= 12 && 1 <= d.day <= 31
  }

  predicate DigitsAt(s: string, i: nat, k: nat)
    requires i + k <= |s|
  {
    forall j :: i <= j < i + k ==> IsDigit(s[j])
  }

  /** The `YYYY-MM-DD` form of ISO 8601 that `IsDateString` accepts: four year
      digits, a month 01-12 and a day 01-31 (the pattern does not check that
      the day exists in that month). */
  function ParseIsoDate(s: string): (r: Option<CalendarDate>)
    ensures r.Some? ==> Spellable(r.value)
  {
    if |s| == 10 && s[4] == '-' && s[7] == '-'
       && DigitsAt(s, 0, 4) && DigitsAt(s, 5, 2) && DigitsAt(s, 8, 2)
    then
      var d := CalendarDate(Number(s, 0, 4), Number(s, 5, 2), Number(s, 8, 2));
      if 1 <= d.month <= 12 && 1 <= d.day <= 31 then Some(d) else None
    else None
  }

  predicate IsDateString(s: string) {
    ParseIsoDate(s).Some?
  }

  function RenderIsoDate(d: CalendarDate): (s: string)
    requires Spellable(d)
    ensures |s| == 10
  {
    [DigitChar(d.year / 1000), DigitChar(d.year / 100 % 10), DigitChar(d.year / 10 % 10),
     DigitChar(d.year % 10), '-',
     DigitChar(d.month / 10), DigitChar(d.month % 10), '-',
     DigitChar(d.day / 10), DigitChar(d.day % 10)]
  }

  lemma NumberOfFour(s: string, i: nat)
    requires i + 4 <= |s| && DigitsAt(s, i, 4)
    ensures Number(s, i, 4) == 1000 * DigitValue(s[i]) + 100 * DigitValue(s[i + 1])
                               + 10 * DigitValue(s[i + 2]) + DigitValue(s[i + 3])
  {
  }

  lemma NumberOfTwo(s: string, i: nat)
    requires i + 2 <= |s| && DigitsAt(s, i, 2)
    ensures Number(s, i, 2) == 10 * DigitValue(s[i]) + DigitValue(s[i + 1])
  {
  }

  lemma FourDigits(y: int)
    requires 0 <= y <= 9999
    ensures 0 <= y / 1000 < 10 && 0 <= y / 100 % 10 < 10 && 0 <= y / 10 % 10 < 10
    ensures y == 1000 * (y / 1000) + 100 * (y / 100 % 10) + 10 * (y / 10 % 10) + y % 10
  {
    var a, b, c := y / 1000, y / 100, y / 10;
    assert y == 10 * c + y % 10;
    assert c == 10 * b + c % 10;
    assert b == 10 * a + b % 10;
  }

  lemma FourDigitsBack(a: int, b: int, c: int, e: int)
    requires 0 <= a < 10 && 0 <= b < 10 && 0 <= c < 10 && 0 <= e < 10
    ensures var y := 1000 * a + 100 * b + 10 * c + e;
      y / 1000 == a && y / 100 % 10 == b && y / 10 % 10 == c && y % 10 == e
  {
    var y := 1000 * a + 100 * b + 10 * c + e;
    assert y / 10 == 100 * a + 10 * b + c;
    assert y / 100 == 10 * a + b;
  }

  lemma DigitRoundTrip(c: char)
    requires IsDigit(c)
    ensures DigitChar(DigitValue(c)) == c
  {
  }

  lemma ParseRenderedDate(d: CalendarDate)
    requires Spellable(d)
    ensures ParseIsoDate(RenderIsoDate(d)) == Some(d)
  {
    var s := RenderIsoDate(d);
    FourDigits(d.year);
    assert DigitsAt(s, 0, 4) && DigitsAt(s, 5, 2) && DigitsAt(s, 8, 2);
    NumberOfFour(s, 0);
    NumberOfTwo(s, 5);
    NumberOfTwo(s, 8);
  }

  lemma TwoDigitsBack(a: int, b: int)
    requires 0 <= a < 10 && 0 <= b < 10
    ensures (10 * a + b) / 10 == a && (10 * a + b) % 10 == b
  {
  }

  lemma RenderParsedDate(s: string)
    requires IsDateString(s)
    ensures RenderIsoDate(ParseIsoDate(s).value) == s
  {
    var d := ParseIsoDate(s).value;
    NumberOfFour(s, 0);
    NumberOfTwo(s, 5);
    NumberOfTwo(s, 8);
    FourDigitsBack(DigitValue(s[0]), DigitValue(s[1]), DigitValue(s[2]), DigitValue(s[3]));
    TwoDigitsBack(DigitValue(s[5]), DigitValue(s[6]));
    TwoDigitsBack(DigitValue(s[8]), DigitValue(s[9]));
    var t := RenderIsoDate(d);
    forall i | 0 <= i < 10 && i != 4 && i != 7
      ensures t[i] == DigitChar(DigitValue(s[i]))
    {
    }
    forall i | 0 <= i < 10
      ensures t[i] == s[i]
    {
      if i != 4 && i != 7 {
        DigitRoundTrip(s[i]);
      }
    }
  }

  predicate IsHexDigit(c: char) {
    IsDigit(c) || 'a' <= c <= 'f' || 'A' <= c <= 'F'
  }

  /** `IsUUID('4')`: 8-4-4-4-12 hexadecimal digits, version digit 4, variant
      digit one of 8, 9, a, b (either case). */
  predicate IsUuidV4(s: string)
    ensures IsUuidV4(s) ==> forall i :: 0 <= i < |s| ==> IsHexDigit(s[i]) || s[i] == '-'
  {
    && |s| == 36
    && (forall i :: 0 <= i < 36 ==> (s[i] == '-' <==> i == 8 || i == 13 || i == 18 || i == 23))
    && (forall i :: 0 <= i < 36 && i != 8 && i != 13 && i != 18 && i != 23 ==> IsHexDigit(s[i]))
    && s[14] == '4'
    && s[19] in "89abAB"
  }

  /** The documented example id is a version-4 UUID; the same id with
      version digit 1, or without its dashes, is not. */
  lemma UuidV4Examples()
    ensures IsUuidV4("550e8400-e29b-41d4-a716-446655440000")
    ensures !IsUuidV4("550e8400-e29b-11d4-a716-446655440000")
    ensures !IsUuidV4("550e8400e29b41d4a716446655440000")
  {
  }

  /** Reads an optional string property. */
  function TextProperty(body: Body, key: string): Field<string>
    requires Omitted(body, key) || body[key].JString?
  {
    if key !in body then Absent else if body[key] == JNull then Null else Given(body[key].text)
  }

  /** Reads an optional boolean property. */
  function FlagProperty(body: Body, key: string): Field<bool>
    requires Omitted(body, key) || body[key].JBool?
  {
    if key !in body then Absent else if body[key] == JNull then Null else Given(body[key].flag)
  }

  /** Reads an optional `YYYY-MM-DD` property. */
  function DateProperty(body: Body, key: string): Field<CalendarDate>
    requires Omitted(body, key) || (body[key].JString? && IsDateString(body[key].text))
  {
    if key !in body then Absent else if body[key] == JNull then Null
    else Given(ParseIsoDate(body[key].text).value)
  }

  /** The JSON value a property that is not left out is sent as. */
  function Sent(f: Field<Json>): Json
    requires !f.Absent?
  {
    if f.Null? then JNull else f.value
  }

  function TextJson(f: Field<string>): Field<Json> {
    match f
    case Absent => Absent
    case Null => Null
    case Given(s) => Given(JString(s))
  }

  function FlagJson(f: Field<bool>): Field<Json> {
    match f
    case Absent => Absent
    case Null => Null
    case Given(b) => Given(JBool(b))
  }

  function DateJson(f: Field<CalendarDate>): Field<Json>
    requires f.Given? ==> Spellable(f.value)
  {
    match f
    case Absent => Absent
    case Null => Null
    case Given(d) => Given(JString(RenderIsoDate(d)))
  }
}
