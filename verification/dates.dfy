/** Reading an answer value as a timestamp with
    `datetime.strptime(value, '%Y-%m-%dT%H:%M:%SZ')` and printing it with
    `strftime('%m/%d/%Y')`; a value that does not parse is printed as it is. */
module Dates {
  import opened Python

  datatype DateTime = DateTime(year: nat, month: nat, day: nat, hour: nat, minute: nat, second: nat)

  predicate IsLeap(y: nat) {
    y % 4 == 0 && (y % 100 != 0 || y % 400 == 0)
  }

  function DaysInMonth(y: nat, m: nat): nat
    requires 1 <= m <= 12
  {
    if m == 2 then (if IsLeap(y) then 29 else 28)
    else if m == 4 || m == 6 || m == 9 || m == 11 then 30
    else 31
  }

  /** What the `datetime` constructor accepts. */
  predicate Valid(dt: DateTime) {
    && 1 <= dt.year <= 9999
    && 1 <= dt.month <= 12
    && 1 <= dt.day <= DaysInMonth(dt.year, dt.month)
    && dt.hour <= 23 && dt.minute <= 59 && dt.second <= 59
  }

  predicate IsDigit(c: char) {
    '0' <= c <= '9'
  }

  predicate AllDigits(s: string) {
    forall k :: 0 <= k < |s| ==> IsDigit(s[k])
  }

  /** The value of a string of decimal digits. */
  function Number(s: string): nat
    requires AllDigits(s)
  {
    if |s| == 0 then 0 else Number(s[..|s| - 1]) * 10 + (s[|s| - 1] as int - '0' as int)
  }

  /** Length of the run of digits that starts `s`. */
  function DigitRun(s: string): (n: nat)
    ensures n <= |s|
    ensures AllDigits(s[..n])
    ensures n < |s| ==> !IsDigit(s[n])
  {
    if |s| == 0 || !IsDigit(s[0]) then 0
    else
      var n := 1 + DigitRun(s[1..]);
      assert s[..n] == [s[0]] + s[1..][..n - 1];
      n
  }

  /** One numeric field of the format: one or two digits whose value lies in
      [lo, hi], followed by one of `seps`. Gives the value and the text after
      the separator; anything else is a ValueError. */
  function ReadField(s: string, lo: nat, hi: nat, seps: set<char>): (r: Result<(nat, string)>)
    ensures r.Ok? ==> lo <= r.value.0 <= hi
    ensures r.Raise? ==> r.error == ValueError
  {
    var n := DigitRun(s);
    if 1 <= n <= 2 && n < |s| && s[n] in seps && lo <= Number(s[..n]) <= hi then
      Ok((Number(s[..n]), s[n + 1..]))
    else Raise(ValueError)
  }

  /** The last numeric field: one or two digits up to the end of the text. */
  function ReadLast(s: string, lo: nat, hi: nat): (r: Result<nat>)
    ensures r.Ok? ==> lo <= r.value <= hi
    ensures r.Raise? ==> r.error == ValueError
  {
    if 1 <= |s| <= 2 && AllDigits(s) && lo <= Number(s) <= hi then Ok(Number(s)) else Raise(ValueError)
  }

  /** `%d` also accepts a space followed by a non-zero digit. */
  function ReadDay(s: string): (r: Result<(nat, string)>)
    ensures r.Ok? ==> 1 <= r.value.0 <= 31
    ensures r.Raise? ==> r.error == ValueError
  {
    if |s| >= 3 && s[0] == ' ' && '1' <= s[1] <= '9' && (s[2] == 'T' || s[2] == 't') then
      Ok((s[1] as int - '0' as int, s[3..]))
    else ReadField(s, 1, 31, {'T', 't'})
  }

  /** `datetime.strptime(s, '%Y-%m-%dT%H:%M:%SZ')`: a four-digit year, then
      month, day, hour, minute and second of one or two digits each, the
      letters matched without regard to case, nothing after the final Z, and a
      date the calendar has. Anything else raises ValueError. */
  function ParseTimestamp(s: string): (r: Result<DateTime>)
    ensures r.Ok? ==> Valid(r.value)
    ensures r.Ok? ==> |s| > 0 && (s[|s| - 1] == 'Z' || s[|s| - 1] == 'z')
    ensures r.Raise? ==> r.error == ValueError
  {
    if |s| == 0 || (s[|s| - 1] != 'Z' && s[|s| - 1] != 'z') then Raise(ValueError)
    else ParseBody(s[..|s| - 1])
  }

  /** The timestamp up to its final Z. */
  function ParseBody(b: string): (r: Result<DateTime>)
    ensures r.Ok? ==> Valid(r.value)
    ensures r.Raise? ==> r.error == ValueError
  {
    if |b| < 5 || !AllDigits(b[..4]) || b[4] != '-' then Raise(ValueError)
    else
      var f1 :- ReadField(b[5..], 1, 12, {'-'});
      var f2 :- ReadDay(f1.1);
      var f3 :- ReadField(f2.1, 0, 23, {':'});
      var f4 :- ReadField(f3.1, 0, 59, {':'});
      var second :- ReadLast(f4.1, 0, 61);
      var dt := DateTime(Number(b[..4]), f1.0, f2.0, f3.0, f4.0, second);
      if Valid(dt) then Ok(dt) else Raise(ValueError)
  }

  function DigitChar(d: nat): char
    requires d < 10
  {
    ('0' as int + d) as char
  }

  /** Zero-padded two-digit rendering (`%m`, `%d`, `%H`, ...). */
  function Pad2(n: nat): (r: string)
    requires n < 100
    ensures |r| == 2 && AllDigits(r)
  {
    [DigitChar(n / 10), DigitChar(n % 10)]
  }

  /** Zero-padded four-digit rendering of the year. */
  function Pad4(n: nat): (r: string)
    requires n < 10000
    ensures |r| == 4 && AllDigits(r)
  {
    Pad2(n / 100) + Pad2(n % 100)
  }

  /** The timestamp as the query service writes it, up to the final Z. */
  function IsoBody(dt: DateTime): string
    requires Valid(dt)
  {
    Pad4(dt.year) + ("-" + (Pad2(dt.month) + ("-" + (Pad2(dt.day) + ("T"
      + (Pad2(dt.hour) + (":" + (Pad2(dt.minute) + (":" + Pad2(dt.second))))))))))
  }

  function Iso(dt: DateTime): string
    requires Valid(dt)
  {
    IsoBody(dt) + "Z"
  }

  /** The date written as month/day/year, each field zero-padded, as
      `strftime('%m/%d/%Y')` prints it. */
  function UsDate(dt: DateTime): (r: string)
    requires Valid(dt)
    ensures |r| == 10 && r[2] == '/' && r[5] == '/'
  {
    Pad2(dt.month) + "/" + Pad2(dt.day) + "/" + Pad4(dt.year)
  }

  /** The line printed for an answer value. */
  function Display(v: string): (r: string)
    ensures ParseTimestamp(v).Ok? ==> |r| == 10 && r[2] == '/' && r[5] == '/'
    ensures ParseTimestamp(v).Raise? ==> r == v
  {
    match ParseTimestamp(v)
    case Ok(dt) => UsDate(dt)
    case Raise(_) => v
  }

  lemma Pad2Value(n: nat)
    requires n < 100
    ensures Number(Pad2(n)) == n
  {
    var p := Pad2(n);
    assert p[..1][..0] == [];
    assert Number(p[..1]) == n / 10;
    assert Number(p) == (n / 10) * 10 + n % 10;
  }

  lemma Pad4Value(n: nat)
    requires n < 10000
    ensures Number(Pad4(n)) == n
  {
    var p := Pad4(n);
    var hi, lo := Pad2(n / 100), Pad2(n % 100);
    assert p[..3][..2] == p[..2] == hi;
    Pad2Value(n / 100);
    Pad2Value(n % 100);
    assert p[..3] == hi + [lo[0]];
    assert Number(p[..3]) == (n / 100) * 10 + (n % 100) / 10;
    assert Number(p) == (n / 100) * 100 + n % 100;
  }

  lemma DigitRunPad2(n: nat, rest: string)
    requires n < 100
    requires |rest| > 0 && !IsDigit(rest[0])
    ensures DigitRun(Pad2(n) + rest) == 2
  {
    var s := Pad2(n) + rest;
    assert s[1..][1..] == rest;
  }

  lemma ReadPad2(n: nat, lo: nat, hi: nat, sep: char, seps: set<char>, rest: string)
    requires n < 100 && lo <= n <= hi
    requires sep in seps && !IsDigit(sep)
    ensures ReadField(Pad2(n) + ([sep] + rest), lo, hi, seps) == Ok((n, rest))
  {
    var s := Pad2(n) + ([sep] + rest);
    DigitRunPad2(n, [sep] + rest);
    assert s[..2] == Pad2(n);
    Pad2Value(n);
    assert s[3..] == rest;
  }

  /** Parsing the timestamp the query service writes for a date gives that
      date back. */
  lemma ParseIso(dt: DateTime)
    requires Valid(dt)
    ensures ParseTimestamp(Iso(dt)) == Ok(dt)
  {
    var b := IsoBody(dt);
    assert Iso(dt)[..|Iso(dt)| - 1] == b;
    ParseIsoBody(dt);
  }

  lemma ParseIsoBody(dt: DateTime)
    requires Valid(dt)
    ensures ParseBody(IsoBody(dt)) == Ok(dt)
  {
    var r5 := Pad2(dt.second);
    var r4 := Pad2(dt.minute) + (":" + r5);
    var r3 := Pad2(dt.hour) + (":" + r4);
    var r2 := Pad2(dt.day) + ("T" + r3);
    var r1 := Pad2(dt.month) + ("-" + r2);
    var b := IsoBody(dt);
    assert b == Pad4(dt.year) + ("-" + r1);
    assert |b| >= 5 && AllDigits(b[..4]) && b[4] == '-' && Number(b[..4]) == dt.year by {
      assert b[..4] == Pad4(dt.year);
      Pad4Value(dt.year);
    }
    assert b[5..] == r1;
    ReadMonthDay(dt, r3);
    ReadTimeOfDay(dt);
  }

  /** The month and day fields of the timestamp read back. */
  lemma ReadMonthDay(dt: DateTime, r3: string)
    requires Valid(dt)
    ensures var r2 := Pad2(dt.day) + ("T" + r3);
      && ReadField(Pad2(dt.month) + ("-" + r2), 1, 12, {'-'}) == Ok((dt.month, r2))
      && ReadDay(r2) == Ok((dt.day, r3))
  {
    var r2 := Pad2(dt.day) + ("T" + r3);
    ReadPad2(dt.month, 1, 12, '-', {'-'}, r2);
    assert r2[0] == Pad2(dt.day)[0];
    ReadPad2(dt.day, 1, 31, 'T', {'T', 't'}, r3);
  }

  /** The hour, minute and second fields of the timestamp read back. */
  lemma ReadTimeOfDay(dt: DateTime)
    requires Valid(dt)
    ensures var r5 := Pad2(dt.second);
      var r4 := Pad2(dt.minute) + (":" + r5);
      var r3 := Pad2(dt.hour) + (":" + r4);
      && ReadField(r3, 0, 23, {':'}) == Ok((dt.hour, r4))
      && ReadField(r4, 0, 59, {':'}) == Ok((dt.minute, r5))
      && ReadLast(r5, 0, 61) == Ok(dt.second)
  {
    var r5 := Pad2(dt.second);
    var r4 := Pad2(dt.minute) + (":" + r5);
    ReadPad2(dt.hour, 0, 23, ':', {':'}, r4);
    ReadPad2(dt.minute, 0, 59, ':', {':'}, r5);
    Pad2Value(dt.second);
  }

  /** A timestamp answer is printed month/day/year. */
  lemma DisplayIso(dt: DateTime)
    requires Valid(dt)
    ensures Display(Iso(dt)) == UsDate(dt)
  {
    ParseIso(dt);
  }

  /** For example, the timestamp of 8 January 1958 prints as 01/08/1958. */
  lemma DisplayExample()
    ensures Display("1958-01-08T00:00:00Z") == "01/08/1958"
  {
    var dt := DateTime(1958, 1, 8, 0, 0, 0);
    ExampleIso();
    ExampleUsDate();
    DisplayIso(dt);
  }

  lemma ExamplePads()
    ensures Pad4(1958) == "1958"
    ensures Pad2(1) == "01" && Pad2(8) == "08" && Pad2(0) == "00"
  {
    assert Pad2(19) == "19" && Pad2(58) == "58";
  }

  lemma ExampleIso()
    ensures Iso(DateTime(1958, 1, 8, 0, 0, 0)) == "1958-01-08T00:00:00Z"
  {
    ExamplePads();
  }

  lemma ExampleUsDate()
    ensures UsDate(DateTime(1958, 1, 8, 0, 0, 0)) == "01/08/1958"
  {
    ExamplePads();
  }

  /** A value that does not end in Z or z is printed unchanged. */
  lemma DisplayNonTimestamp(v: string)
    requires v == [] || (v[|v| - 1] != 'Z' && v[|v| - 1] != 'z')
    ensures Display(v) == v
  {
  }
}
