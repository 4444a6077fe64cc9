/** Normalising Hive timestamps to fixed-width UTC text whose order is the order of time.
    (packages/indexer/src/utils/hive-timestamp.ts) */
module HiveTimestamps {
  import opened Prelude
  import opened Calendar
  import opened Digits

  // ---- Fixed width ----

  /** `n` in exactly `width` digits. */
  function Pad(n: nat, width: nat): (s: string)
    ensures |s| == width && AllDigits(s)
  {
    if width == 0 then "" else Pad(n / 10, width - 1) + [DigitChar(n % 10)]
  }

  function Pow10(k: nat): nat { if k == 0 then 1 else 10 * Pow10(k - 1) }

  lemma {:induction false} PadNumber(n: nat, width: nat)
    requires n < Pow10(width)
    ensures NumberOf(Pad(n, width)) == n
  {
    if width > 0 {
      PadNumber(n / 10, width - 1);
      assert Pad(n, width)[..width - 1] == Pad(n / 10, width - 1);
    }
  }

  // ---- Parsing ----

  /** `(?:\.(\d{1,3}))?Z?$`, as milliseconds: a fraction is filled up with zeros to three digits. */
  function Fraction(rest: string): Option<nat> {
    var body := if rest != "" && rest[|rest| - 1] == 'Z' then rest[..|rest| - 1] else rest;
    if body == "" then Some(0)
    else if body[0] == '.' && 2 <= |body| <= 4 && AllDigits(body[1..]) then
      Some(NumberOf(body[1..]) * Pow10(4 - |body|))
    else None
  }

  predicate Shaped(raw: string) {
    && |raw| >= 19
    && AllDigits(raw[0..4]) && raw[4] == '-' && AllDigits(raw[5..7]) && raw[7] == '-' && AllDigits(raw[8..10])
    && raw[10] == 'T' && AllDigits(raw[11..13]) && raw[13] == ':' && AllDigits(raw[14..16]) && raw[16] == ':'
    && AllDigits(raw[17..19])
  }

  /** The numbers in the text, whether or not they name a point in time. */
  function Parse(raw: string): Option<Fields> {
    if !Shaped(raw) || Fraction(raw[19..]).None? then None
    else
      Some(Fields(
        Date(NumberOf(raw[0..4]), NumberOf(raw[5..7]), NumberOf(raw[8..10])),
        NumberOf(raw[11..13]), NumberOf(raw[14..16]), NumberOf(raw[17..19]), Fraction(raw[19..]).value))
  }

  /** `Date.UTC` reads years 0 to 99 as 1900 to 1999. */
  function UtcFields(f: Fields): Fields {
    if f.date.year <= 99 then f.(date := f.date.(year := 1900 + f.date.year)) else f
  }

  // ---- Printing ----

  /** A number in fixed width and the character after it. */
  datatype Part = Part(value: nat, width: nat, separator: char)

  function Print(parts: seq<Part>): string
    decreases |parts|
  {
    if parts == [] then "" else Pad(parts[0].value, parts[0].width) + [parts[0].separator] + Print(parts[1..])
  }

  function Parts(f: Fields): seq<Part> {
    [Part(f.date.year, 4, '-'), Part(f.date.month, 2, '-'), Part(f.date.day, 2, 'T'), Part(f.hour, 2, ':'),
     Part(f.minute, 2, ':'), Part(f.second, 2, '.'), Part(f.millisecond, 3, 'Z')]
  }

  /** `toISOString` of a moment between the years 0 and 9999. */
  function Iso(f: Fields): string { Print(Parts(f)) }

  /** The source's own check: build the date, read it back, and insist on the same numbers. */
  function NormalizeHiveTimestampToUtc(raw: string): Outcome<string> {
    var parsed := Parse(raw);
    if parsed.None? then Reject("Invalid format")
    else
      var moment := Moment(UtcFields(parsed.value));
      MomentNotNegative(UtcFields(parsed.value));
      if FieldsAt(moment) != parsed.value then Reject("Invalid value")
      else Ok(Iso(FieldsAt(moment)))
  }

  /** Accepted are exactly the well-shaped texts that name a real calendar date and time of day, except in
      the years 0 to 99; the result is that time in fixed width. */
  lemma AcceptsRealTimes(raw: string)
    ensures var r := NormalizeHiveTimestampToUtc(raw);
      && (r.Ok? <==> Parse(raw).Some? && Parse(raw).value.Valid() && Parse(raw).value.date.year >= 100)
      && (r.Ok? ==> r.value == Iso(Parse(raw).value))
  {
    if Parse(raw).Some? {
      var f := Parse(raw).value;
      FieldsRoundTrip(UtcFields(f));
      if f.date.year <= 99 { YearStays(UtcFields(f)); }
    }
  }

  /** A date that rolls over lands no earlier than the year before, far from the years 0 to 99. */
  lemma YearStays(f: Fields)
    requires f.date.year >= 1900
    ensures Moment(f) >= 0 && FieldsAt(Moment(f)).date.year > 99
  {
    hide DaysBeforeYear, DaysBeforeMonth, Civil;
    MomentNotNegative(f);
    var n := Moment(f) / MS_PER_DAY;
    DaysFromYear(f);
    var d := FieldsAt(Moment(f)).date;
    CivilDayNumber(n);
    WithinYear(d);
    if d.year <= 99 { YearsGrow(d.year, 1899); }
  }

  lemma DaysFromYear(f: Fields)
    requires f.date.year >= 1900 && Moment(f) >= 0
    ensures Moment(f) / MS_PER_DAY >= DaysBeforeYear(1899)
  {
    var d := f.date;
    var ym := d.year + (d.month - 1) / 12;
    YearLength(1899);
    if ym > 1899 { YearsGrow(1899, ym); } else { assert (d.month - 1) % 12 + 1 == 12; }
    assert DayNumber(d.year, d.month, d.day) >= DaysBeforeYear(1899);
  }

  // ---- Text order is time order ----

  /** JavaScript's `<` on strings. */
  predicate Less(s: string, t: string) {
    t != "" && (s == "" || s[0] < t[0] || (s[0] == t[0] && Less(s[1..], t[1..])))
  }

  lemma {:induction false} LessOfConcat(a: string, b: string, c: string, d: string)
    requires |a| == |c|
    ensures Less(a + b, c + d) <==> Less(a, c) || (a == c && Less(b, d))
    decreases |a|
  {
    if a == "" {
      assert a + b == b && c + d == d;
    } else {
      assert (a + b)[1..] == a[1..] + b && (c + d)[1..] == c[1..] + d;
      LessOfConcat(a[1..], b, c[1..], d);
      assert a == [a[0]] + a[1..] && c == [c[0]] + c[1..];
    }
  }

  lemma LessOfChar(a: char, b: char)
    ensures Less([a], [b]) <==> a < b
  {
    assert [a][1..] == "" && [b][1..] == "";
  }

  lemma {:induction false} PadOrder(n: nat, m: nat, width: nat)
    requires n < Pow10(width) && m < Pow10(width)
    ensures Less(Pad(n, width), Pad(m, width)) <==> n < m
    ensures Pad(n, width) == Pad(m, width) <==> n == m
  {
    hide NumberOf, Less;
    PadNumber(n, width);
    PadNumber(m, width);
    if width == 0 {
      NothingLess();
    } else {
      PadOrder(n / 10, m / 10, width - 1);
      LessOfConcat(Pad(n / 10, width - 1), [DigitChar(n % 10)], Pad(m / 10, width - 1), [DigitChar(m % 10)]);
      LessOfChar(DigitChar(n % 10), DigitChar(m % 10));
      DigitOrder(n, m);
    }
  }

  lemma NothingLess()
    ensures !Less("", "")
  {}

  lemma DigitOrder(n: nat, m: nat)
    ensures n < m <==> n / 10 < m / 10 || (n / 10 == m / 10 && n % 10 < m % 10)
    ensures DigitChar(n % 10) < DigitChar(m % 10) <==> n % 10 < m % 10
  {}

  ghost predicate SameShape(a: seq<Part>, b: seq<Part>) {
    |a| == |b| && forall i :: 0 <= i < |a| ==>
      && a[i].width == b[i].width && a[i].separator == b[i].separator
      && a[i].value < Pow10(a[i].width) && b[i].value < Pow10(b[i].width)
  }

  /** The first difference decides. */
  ghost predicate PartsBefore(a: seq<Part>, b: seq<Part>)
    requires |a| == |b|
    decreases |a|
  {
    a != [] && (a[0].value < b[0].value || (a[0].value == b[0].value && PartsBefore(a[1..], b[1..])))
  }

  lemma {:induction false} PrintOrder(a: seq<Part>, b: seq<Part>)
    requires SameShape(a, b)
    ensures Less(Print(a), Print(b)) <==> PartsBefore(a, b)
    decreases |a|
  {
    if a != [] {
      var x, y, sep := Pad(a[0].value, a[0].width), Pad(b[0].value, b[0].width), [a[0].separator];
      PadOrder(a[0].value, b[0].value, a[0].width);
      PrintOrder(a[1..], b[1..]);
      LessOfConcat(x + sep, Print(a[1..]), y + sep, Print(b[1..]));
      LessOfConcat(x, sep, y, sep);
      LessOfChar(a[0].separator, a[0].separator);
      assert x + sep == y + sep <==> x == y by {
        if x + sep == y + sep { assert x == (x + sep)[..|x|] && y == (y + sep)[..|y|]; }
      }
    }
  }

  lemma PartsOfFields(f: Fields, g: Fields)
    requires f.Valid() && g.Valid() && f.date.year < 10_000 && g.date.year < 10_000
    ensures SameShape(Parts(f), Parts(g))
    ensures PartsBefore(Parts(f), Parts(g)) <==> FieldsBefore(f, g)
  {
    assert Pow10(2) == 100 && Pow10(3) == 1_000 && Pow10(4) == 10_000;
    TimeOfDayFields(f);
    TimeOfDayFields(g);
    TimeOrder(f, g);
    var a, b := Parts(f), Parts(g);
    assert PartsBefore(a, b) <==>
      f.date.year < g.date.year || (f.date.year == g.date.year && PartsBefore(a[1..], b[1..]));
    assert a[1..][1..] == a[2..] && b[1..][1..] == b[2..];
    assert PartsBefore(a[1..], b[1..]) <==>
      f.date.month < g.date.month || (f.date.month == g.date.month && PartsBefore(a[2..], b[2..]));
    assert a[2..][1..] == a[3..] && b[2..][1..] == b[3..];
    assert PartsBefore(a[2..], b[2..]) <==>
      f.date.day < g.date.day || (f.date.day == g.date.day && PartsBefore(a[3..], b[3..]));
  }

  lemma TimeOrder(f: Fields, g: Fields)
    requires f.Valid() && g.Valid()
    ensures PartsBefore(Parts(f)[3..], Parts(g)[3..]) <==> TimeOfDay(f) < TimeOfDay(g)
  {
    var a, b := Parts(f), Parts(g);
    assert a[3..][1..] == a[4..] && a[4..][1..] == a[5..] && a[5..][1..] == a[6..] && a[6..][1..] == [];
    assert b[3..][1..] == b[4..] && b[4..][1..] == b[5..] && b[5..][1..] == b[6..] && b[6..][1..] == [];
    assert PartsBefore(a[6..], b[6..]) <==> f.millisecond < g.millisecond;
    assert PartsBefore(a[5..], b[5..]) <==>
      f.second < g.second || (f.second == g.second && f.millisecond < g.millisecond);
    assert PartsBefore(a[4..], b[4..]) <==>
      f.minute < g.minute || (f.minute == g.minute && PartsBefore(a[5..], b[5..]));
    assert PartsBefore(a[3..], b[3..]) <==> f.hour < g.hour || (f.hour == g.hour && PartsBefore(a[4..], b[4..]));
  }

  predicate AccountCreatedBeforeOperation(accountCreatedAtUtc: string, operationAtUtc: string) {
    Less(accountCreatedAtUtc, operationAtUtc)
  }

  lemma ParsedYear(raw: string)
    requires Parse(raw).Some?
    ensures Parse(raw).value.date.year < 10_000
  {
    FourDigits(raw[0..4]);
  }

  lemma FourDigits(s: string)
    requires AllDigits(s) && |s| == 4
    ensures NumberOf(s) < 10_000
  {
    var s3 := s[..3];
    assert s3[..2][..1][..0] == "" && s[..3] == s3;
    assert NumberOf(s3[..2][..1]) < 10;
    assert NumberOf(s3[..2]) < 100;
    assert NumberOf(s3) < 1_000;
  }

  /** Two accepted timestamps, with or without fraction or `Z`, compare as text exactly as they compare in
      time; they become the same text exactly when they are the same moment. */
  lemma TextOrderIsTimeOrder(raw: string, other: string)
    requires NormalizeHiveTimestampToUtc(raw).Ok? && NormalizeHiveTimestampToUtc(other).Ok?
    ensures var s, t := NormalizeHiveTimestampToUtc(raw).value, NormalizeHiveTimestampToUtc(other).value;
      && (AccountCreatedBeforeOperation(s, t) <==> Moment(Parse(raw).value) < Moment(Parse(other).value))
      && (s == t <==> Moment(Parse(raw).value) == Moment(Parse(other).value))
  {
    hide Parse, Iso, Print, Moment, Fields.Valid, Less;
    AcceptsRealTimes(raw);
    AcceptsRealTimes(other);
    ParsedYear(raw);
    ParsedYear(other);
    var f, g := Parse(raw).value, Parse(other).value;
    IsoOrder(f, g);
    IsoOrder(g, f);
    IsoOrder(f, f);
    MomentsFollowFields(f, g);
    MomentsFollowFields(g, f);
    FieldsRoundTrip(f);
    FieldsRoundTrip(g);
  }

  lemma IsoOrder(f: Fields, g: Fields)
    requires f.Valid() && g.Valid() && f.date.year < 10_000 && g.date.year < 10_000
    ensures Less(Iso(f), Iso(g)) <==> FieldsBefore(f, g)
  {
    PartsOfFields(f, g);
    PrintOrder(Parts(f), Parts(g));
  }

  /** A trailing `Z` makes no difference. */
  lemma ZoneLetterIsOptional(raw: string)
    requires |raw| >= 19 && raw[|raw| - 1] != 'Z'
    ensures NormalizeHiveTimestampToUtc(raw + "Z") == NormalizeHiveTimestampToUtc(raw)
  {
    var z := raw + "Z";
    assert z[19..] == raw[19..] + "Z" && (raw[19..] + "Z")[..|raw| - 19] == raw[19..];
    assert z[0..4] == raw[0..4] && z[5..7] == raw[5..7] && z[8..10] == raw[8..10];
    assert z[11..13] == raw[11..13] && z[14..16] == raw[14..16] && z[17..19] == raw[17..19];
    assert Fraction(z[19..]) == Fraction(raw[19..]);
  }

  // ---- The normal form is a fixed point ----

  lemma PrintFirst(parts: seq<Part>)
    requires parts != []
    ensures var p := parts[0]; var text := Print(parts);
      && |text| >= p.width + 1
      && text[..p.width] == Pad(p.value, p.width) && text[p.width] == p.separator
      && text[p.width + 1..] == Print(parts[1..])
  {}

  lemma Slice(s: string, from: nat, i: nat, j: nat)
    requires from <= |s| && i <= j <= |s| - from
    ensures s[from..][i..j] == s[from + i..from + j] && s[from..][i..] == s[from + i..]
  {}

  /** One printed part, found at its place in the whole text. */
  lemma PartAt(text: string, parts: seq<Part>, at: nat)
    requires parts != [] && at <= |text| && text[at..] == Print(parts)
    ensures var p := parts[0];
      && at + p.width + 1 <= |text|
      && text[at..at + p.width] == Pad(p.value, p.width) && text[at + p.width] == p.separator
      && text[at + p.width + 1..] == Print(parts[1..])
  {
    PrintFirst(parts);
    Slice(text, at, 0, parts[0].width);
    Slice(text, at, parts[0].width + 1, parts[0].width + 1);
  }

  /** Where everything stands in the normal form. */
  lemma IsoLayout(f: Fields)
    ensures var s := Iso(f);
      && |s| == 24 && s[0..4] == Pad(f.date.year, 4) && s[5..7] == Pad(f.date.month, 2) && s[8..10] == Pad(f.date.day, 2)
      && s[11..13] == Pad(f.hour, 2) && s[14..16] == Pad(f.minute, 2) && s[17..19] == Pad(f.second, 2)
      && s[19..] == "." + Pad(f.millisecond, 3) + "Z"
      && s[4] == '-' && s[7] == '-' && s[10] == 'T' && s[13] == ':' && s[16] == ':' && s[19] == '.' && s[23] == 'Z'
  {
    hide Print;
    var s, parts := Iso(f), Parts(f);
    assert s[0..] == s;
    PartAt(s, parts, 0);
    PartAt(s, parts[1..], 5);
    assert parts[1..][1..] == parts[2..];
    PartAt(s, parts[2..], 8);
    assert parts[2..][1..] == parts[3..];
    PartAt(s, parts[3..], 11);
    assert parts[3..][1..] == parts[4..];
    PartAt(s, parts[4..], 14);
    assert parts[4..][1..] == parts[5..];
    PartAt(s, parts[5..], 17);
    assert parts[5..][1..] == parts[6..];
    PartAt(s, parts[6..], 20);
    assert parts[6..][1..] == [] && Print([]) == "" by { PrintNothing(); }
  }

  lemma ParseOfIso(f: Fields)
    requires f.Valid() && f.date.year < 10_000
    ensures Parse(Iso(f)) == Some(f)
  {
    hide Iso, Pad, NumberOf, Fraction;
    IsoLayout(f);
    NumbersOfIso(f);
    FractionOfIso(f.millisecond);
  }

  lemma PrintNothing()
    ensures Print([]) == ""
  {}

  lemma NumbersOfIso(f: Fields)
    requires f.Valid() && f.date.year < 10_000
    ensures NumberOf(Pad(f.date.year, 4)) == f.date.year
    ensures NumberOf(Pad(f.date.month, 2)) == f.date.month && NumberOf(Pad(f.date.day, 2)) == f.date.day
    ensures NumberOf(Pad(f.hour, 2)) == f.hour && NumberOf(Pad(f.minute, 2)) == f.minute
    ensures NumberOf(Pad(f.second, 2)) == f.second
  {
    hide NumberOf, Pad;
    assert Pow10(2) == 100 && Pow10(4) == 10_000;
    PadNumber(f.date.year, 4);
    PadNumber(f.date.month, 2);
    PadNumber(f.date.day, 2);
    PadNumber(f.hour, 2);
    PadNumber(f.minute, 2);
    PadNumber(f.second, 2);
  }

  lemma FractionOfIso(ms: nat)
    requires ms < 1000
    ensures Fraction("." + Pad(ms, 3) + "Z") == Some(ms)
  {
    hide Pad, NumberOf;
    assert Pow10(3) == 1_000 && Pow10(0) == 1;
    PadNumber(ms, 3);
    var rest := "." + Pad(ms, 3) + "Z";
    assert rest[..|rest| - 1] == "." + Pad(ms, 3);
    assert ("." + Pad(ms, 3))[1..] == Pad(ms, 3);
  }

  /** Normalising what has been normalised changes nothing. */
  lemma NormalFormIsStable(raw: string)
    requires NormalizeHiveTimestampToUtc(raw).Ok?
    ensures var s := NormalizeHiveTimestampToUtc(raw).value; NormalizeHiveTimestampToUtc(s) == Ok(s)
  {
    hide Parse, Iso, Fields.Valid;
    AcceptsRealTimes(raw);
    ParsedYear(raw);
    ParseOfIso(Parse(raw).value);
    AcceptsRealTimes(Iso(Parse(raw).value));
  }

  // ---- What the characters mean ----

  function Code(c: char): int { c as int - '0' as int }

  lemma NumberOfOne(s: string)
    requires |s| == 1 && AllDigits(s)
    ensures NumberOf(s) == Code(s[0])
  {
    assert s[..0] == "";
  }

  lemma NumberOfTwo(s: string)
    requires |s| == 2 && AllDigits(s)
    ensures NumberOf(s) == 10 * Code(s[0]) + Code(s[1])
  {
    NumberOfOne(s[..1]);
  }

  lemma NumberOfThree(s: string)
    requires |s| == 3 && AllDigits(s)
    ensures NumberOf(s) == 100 * Code(s[0]) + 10 * Code(s[1]) + Code(s[2])
  {
    NumberOfTwo(s[..2]);
  }

  lemma NumberOfFour(s: string)
    requires |s| == 4 && AllDigits(s)
    ensures NumberOf(s) == 1000 * Code(s[0]) + 100 * Code(s[1]) + 10 * Code(s[2]) + Code(s[3])
  {
    NumberOfThree(s[..3]);
  }

  /** Tenths, hundredths and thousandths of a second. */
  function Milliseconds(digits: string): int {
    (if |digits| > 0 then 100 * Code(digits[0]) else 0)
    + (if |digits| > 1 then 10 * Code(digits[1]) else 0)
    + (if |digits| > 2 then Code(digits[2]) else 0)
  }

  function FractionSpelling(digits: string, zone: string): string {
    (if digits == "" then "" else "." + digits) + zone
  }

  /** What may follow the seconds: nothing, or a point and one to three digits, and then an optional Z. */
  ghost predicate FractionText(rest: string, ms: int) {
    exists digits: string, zone: string :: rest == FractionSpelling(digits, zone) && ms == Milliseconds(digits)
      && (zone == "" || zone == "Z") && |digits| <= 3 && AllDigits(digits)
  }

  lemma FractionOfDigits(digits: string, zone: string)
    requires |digits| <= 3 && AllDigits(digits) && (zone == "" || zone == "Z")
    ensures Milliseconds(digits) >= 0 && Fraction(FractionSpelling(digits, zone)) == Some(Milliseconds(digits))
  {
    hide NumberOf;
    var body := if digits == "" then "" else "." + digits;
    var rest := body + zone;
    assert zone == "Z" ==> rest[..|rest| - 1] == body;
    assert zone == "" ==> rest == body;
    assert Pow10(0) == 1 && Pow10(1) == 10 && Pow10(2) == 100;
    if |digits| >= 1 {
      assert rest[|rest| - 1] == 'Z' <==> zone == "Z";
      assert body[1..] == digits;
      if |digits| == 1 { NumberOfOne(digits); }
      else if |digits| == 2 { NumberOfTwo(digits); }
      else { NumberOfThree(digits); }
    }
  }

  lemma FractionIsText(rest: string)
    ensures forall ms: nat :: Fraction(rest) == Some(ms) <==> FractionText(rest, ms)
  {
    hide Fraction, AllDigits, Milliseconds, FractionSpelling;
    forall digits: string, zone: string | rest == FractionSpelling(digits, zone)
      && (zone == "" || zone == "Z") && |digits| <= 3 && AllDigits(digits)
      ensures Milliseconds(digits) >= 0 && Fraction(rest) == Some(Milliseconds(digits))
    {
      FractionOfDigits(digits, zone);
    }
    if Fraction(rest).Some? { FractionHasText(rest); }
  }

  lemma FractionHasText(rest: string)
    requires Fraction(rest).Some?
    ensures FractionText(rest, Fraction(rest).value)
  {
    hide NumberOf, Milliseconds;
    var zone := if rest != "" && rest[|rest| - 1] == 'Z' then "Z" else "";
    var body := if zone == "Z" then rest[..|rest| - 1] else rest;
    var digits := if body == "" then "" else body[1..];
    assert rest == body + zone;
    assert body == if digits == "" then "" else "." + digits;
    assert rest == FractionSpelling(digits, zone);
    FractionOfDigits(digits, zone);
  }

  /** The accepted texts, character by character: year, month, day, T, hour, minute, second and a fraction. */
  ghost predicate Spells(raw: string, f: Fields) {
    && |raw| >= 19
    && (forall i :: 0 <= i < 19 && i !in {4, 7, 10, 13, 16} ==> '0' <= raw[i] <= '9')
    && raw[4] == '-' && raw[7] == '-' && raw[10] == 'T' && raw[13] == ':' && raw[16] == ':'
    && f.date.year == 1000 * Code(raw[0]) + 100 * Code(raw[1]) + 10 * Code(raw[2]) + Code(raw[3])
    && f.date.month == 10 * Code(raw[5]) + Code(raw[6]) && f.date.day == 10 * Code(raw[8]) + Code(raw[9])
    && f.hour == 10 * Code(raw[11]) + Code(raw[12]) && f.minute == 10 * Code(raw[14]) + Code(raw[15])
    && f.second == 10 * Code(raw[17]) + Code(raw[18])
    && FractionText(raw[19..], f.millisecond)
  }

  lemma ParsedIsSpelled(raw: string)
    ensures forall f :: Parse(raw) == Some(f) <==> Spells(raw, f)
  {
    hide NumberOf, Fraction, FractionText;
    if |raw| >= 19 {
      FractionIsText(raw[19..]);
      ShapedIs(raw);
      if Shaped(raw) {
        NumberOfFour(raw[0..4]);
        NumberOfTwo(raw[5..7]);
        NumberOfTwo(raw[8..10]);
        NumberOfTwo(raw[11..13]);
        NumberOfTwo(raw[14..16]);
        NumberOfTwo(raw[17..19]);
      }
    }
  }

  lemma ShapedIs(raw: string)
    requires |raw| >= 19
    ensures Shaped(raw) <==>
      && (forall i :: 0 <= i < 19 && i !in {4, 7, 10, 13, 16} ==> '0' <= raw[i] <= '9')
      && raw[4] == '-' && raw[7] == '-' && raw[10] == 'T' && raw[13] == ':' && raw[16] == ':'
  {
    if Shaped(raw) {
      forall i | 0 <= i < 19 && i !in {4, 7, 10, 13, 16} ensures IsDigit(raw[i]) {
        if i < 4 { assert raw[0..4][i] == raw[i]; }
        else if i < 7 { assert raw[5..7][i - 5] == raw[i]; }
        else if i < 10 { assert raw[8..10][i - 8] == raw[i]; }
        else if i < 13 { assert raw[11..13][i - 11] == raw[i]; }
        else if i < 16 { assert raw[14..16][i - 14] == raw[i]; }
        else { assert raw[17..19][i - 17] == raw[i]; }
      }
    }
  }

  /** A time is accepted if and only if the text spells a real one in the years 100 to 9999, and the result
      spells the same time with three digits of fraction and a Z. */
  lemma AcceptedIsSpelled(raw: string)
    ensures NormalizeHiveTimestampToUtc(raw).Ok? <==> exists f: Fields :: Spells(raw, f) && f.Valid() && f.date.year >= 100
    ensures NormalizeHiveTimestampToUtc(raw).Ok? ==> forall f: Fields :: Spells(raw, f) ==>
      var s := NormalizeHiveTimestampToUtc(raw).value; Spells(s, f) && |s| == 24 && s[19] == '.' && s[23] == 'Z'
  {
    hide Spells, Parse, Iso, Fields.Valid;
    AcceptsRealTimes(raw);
    ParsedIsSpelled(raw);
    if NormalizeHiveTimestampToUtc(raw).Ok? {
      var f := Parse(raw).value;
      assert Spells(raw, f);
      ParsedYear(raw);
      ParseOfIso(f);
      ParsedIsSpelled(Iso(f));
      IsoLayout(f);
    }
  }
}
