/** The validated values a contact is made of: Phone and Birthday
    (AddrBook.py:24-55). */
module Fields {
  import opened Exceptions
  import opened Text
  import opened Calendar

  // ---------------------------------------------------------------------
  // Phone

  /** A phone number as stored in a record; only MakePhone builds one. */
  datatype Phone = Phone(value: string)

  /** Exactly ten ASCII digits. */
  predicate IsPhoneNumber(s: string) {
    |s| == 10 && AllDigits(s)
  }

  /** Phone(number): the number itself when it is ten digits, ValueError otherwise. */
  function MakePhone(number: string): (r: Result<Phone>)
    ensures r.Ok? <==> |number| == 10 && forall i :: 0 <= i < |number| ==> '0' <= number[i] <= '9'
    ensures r.Ok? ==> r.value.value == number
    ensures r.Err? ==> r.error == ValueError
  {
    if IsPhoneNumber(number) then Ok(Phone(number)) else Err(ValueError)
  }

  /** Phone.__eq__: two phones are equal exactly when their numbers are. */
  function PhoneEquals(a: Phone, b: Phone): (r: bool)
    ensures r <==> a == b
  {
    a.value == b.value
  }

  /** The check validate_number makes as written: a length of 10 and
      re.match(r"^\d+$"), whose `$` also matches just before a final
      newline. */
  predicate PassesPhoneCheckAsWritten(s: string) {
    |s| == 10 &&
    ((|s| > 0 && AllDigits(s)) ||
     (|s| > 1 && s[|s| - 1] == '\n' && AllDigits(s[..|s| - 1])))
  }

  /** The check as written lets a nine-digit number followed by a newline
      through; IsPhoneNumber, which MakePhone uses, does not. */
  lemma NewlineSlipsThroughAsWritten()
    ensures PassesPhoneCheckAsWritten("012345678\n")
    ensures !IsPhoneNumber("012345678\n")
  {
    var s := "012345678\n";
    assert s[..9] == "012345678";
    assert !IsDigit(s[9]);
  }

  /** The newline case is the only difference between the two checks. */
  lemma PhoneCheckDifference(s: string)
    ensures IsPhoneNumber(s) ==> PassesPhoneCheckAsWritten(s)
    ensures PassesPhoneCheckAsWritten(s) && !IsPhoneNumber(s) ==> s[9] == '\n' && AllDigits(s[..9])
  {
  }

  // ---------------------------------------------------------------------
  // Birthday: strptime(value, "%d.%m.%Y")

  /** A day token as strptime's %d reads it: 3[01]|[12]\d|0[1-9]|[1-9]| [1-9]. */
  function DayToken(t: string): (r: Option<int>)
    ensures r.Some? ==> 1 <= r.value <= 31
  {
    if |t| == 2 && t[0] == '3' && (t[1] == '0' || t[1] == '1') then Some(30 + DigitValue(t[1]))
    else if |t| == 2 && (t[0] == '1' || t[0] == '2') && IsDigit(t[1]) then
      Some(10 * DigitValue(t[0]) + DigitValue(t[1]))
    else if |t| == 2 && t[0] == '0' && IsNonZeroDigit(t[1]) then Some(DigitValue(t[1]))
    else if |t| == 1 && IsNonZeroDigit(t[0]) then Some(DigitValue(t[0]))
    else if |t| == 2 && t[0] == ' ' && IsNonZeroDigit(t[1]) then Some(DigitValue(t[1]))
    else None
  }

  /** A month token as strptime's %m reads it: 1[0-2]|0[1-9]|[1-9]. */
  function MonthToken(t: string): (r: Option<int>)
    ensures r.Some? ==> 1 <= r.value <= 12
  {
    if |t| == 2 && t[0] == '1' && '0' <= t[1] <= '2' then Some(10 + DigitValue(t[1]))
    else if |t| == 2 && t[0] == '0' && IsNonZeroDigit(t[1]) then Some(DigitValue(t[1]))
    else if |t| == 1 && IsNonZeroDigit(t[0]) then Some(DigitValue(t[0]))
    else None
  }

  /** A year token as strptime's %Y reads it: exactly four digits. */
  function YearToken(t: string): (r: Option<int>)
    ensures r.Some? <==> |t| == 4 && AllDigits(t)
    ensures r.Some? ==> 0 <= r.value <= 9999
  {
    if |t| == 4 && AllDigits(t) then
      ValueBound(t);
      Some(Value(t))
    else None
  }

  lemma {:induction false} ValueBound(t: string)
    requires AllDigits(t)
    ensures Value(t) < Pow10(|t|)
  {
    if t != [] {
      ValueBound(t[..|t| - 1]);
    }
  }

  predicate NoDot(s: string) {
    forall i :: 0 <= i < |s| ==> s[i] != '.'
  }

  /** The index of the first '.', or |s| when there is none. */
  function FirstDot(s: string): (k: nat)
    ensures k <= |s| && NoDot(s[..k])
    ensures k < |s| ==> s[k] == '.'
  {
    if s == [] || s[0] == '.' then 0
    else
      var k := 1 + FirstDot(s[1..]);
      assert s[..k] == [s[0]] + s[1..][..k - 1];
      k
  }

  /** The text before the first dot, between the first two dots, and after
      the second dot. No token of the format can hold a dot, so this is the
      only way the pattern can split the input. */
  function Pieces(s: string): Option<(string, string, string)> {
    var i := FirstDot(s);
    if i == |s| then None
    else
      var rest := s[i + 1..];
      var j := FirstDot(rest);
      if j == |rest| then None
      else Some((s[..i], rest[..j], rest[j + 1..]))
  }

  /** Birthday(value): the date the text names, or ValueError for text that
      is not day.month.year or names no date (31.02, 29.02 of a common
      year, year 0000). */
  function ParseBirthday(text: string): (r: Result<Date>)
    ensures r.Ok? ==> IsValid(r.value)
    ensures r.Err? ==> r.error == ValueError
  {
    match Pieces(text)
    case None => Err(ValueError)
    case Some((a, b, c)) =>
      var day, month, year := DayToken(a), MonthToken(b), YearToken(c);
      if day.None? || month.None? || year.None? then Err(ValueError)
      else
        var d := Date(year.value, month.value, day.value);
        if IsValid(d) then Ok(d) else Err(ValueError)
  }

  /** The zero-padded DD.MM.YYYY text of a date. */
  function FormatDmy(d: Date): string
    requires IsValid(d)
  {
    Pad(d.day, 2) + "." + Pad(d.month, 2) + "." + Pad(d.year, 4)
  }

  // ---------------------------------------------------------------------
  // Lemmas about Birthday

  lemma {:induction false} FirstDotAfter(a: string, rest: string)
    requires NoDot(a)
    ensures FirstDot(a + "." + rest) == |a|
  {
    if a != [] {
      assert (a + "." + rest)[1..] == a[1..] + "." + rest;
      FirstDotAfter(a[1..], rest);
    }
  }

  /** Text made of two dot-free parts and a tail, joined by dots, splits back
      into those parts. */
  lemma PiecesOfJoin(a: string, b: string, c: string)
    requires NoDot(a) && NoDot(b)
    ensures Pieces(a + "." + b + "." + c) == Some((a, b, c))
  {
    var s := a + "." + b + "." + c;
    FirstDotAfter(a, b + "." + c);
    assert s == a + "." + (b + "." + c);
    assert s[|a| + 1..] == b + "." + c;
    FirstDotAfter(b, c);
    var rest := s[|a| + 1..];
    assert s[..|a|] == a;
    assert rest[..|b|] == b && rest[|b| + 1..] == c;
  }

  /** Whatever Pieces splits off joins back into the text. */
  lemma PiecesJoin(s: string)
    requires Pieces(s).Some?
    ensures var (a, b, c) := Pieces(s).value;
            s == a + "." + b + "." + c && NoDot(a) && NoDot(b)
  {
    var i := FirstDot(s);
    var rest := s[i + 1..];
    var j := FirstDot(rest);
    assert rest == rest[..j] + "." + rest[j + 1..];
    assert s == s[..i] + "." + rest;
  }

  /** A Birthday is built exactly when the text is a day token, a dot, a
      month token, a dot and a four-digit year naming a real date, and it
      holds that date. */
  lemma ParseBirthdayParts(a: string, b: string, c: string)
    requires NoDot(a) && NoDot(b)
    ensures var r := ParseBirthday(a + "." + b + "." + c);
            r.Ok? <==> DayToken(a).Some? && MonthToken(b).Some? && YearToken(c).Some? &&
                       IsValid(Date(YearToken(c).value, MonthToken(b).value, DayToken(a).value))
    ensures var r := ParseBirthday(a + "." + b + "." + c);
            r.Ok? ==> r.value == Date(YearToken(c).value, MonthToken(b).value, DayToken(a).value)
  {
    PiecesOfJoin(a, b, c);
  }

  /** Text with fewer than two dots is never a birthday. */
  lemma ParseBirthdayNeedsTwoDots(s: string)
    requires ParseBirthday(s).Ok?
    ensures exists a, b, c :: s == a + "." + b + "." + c && NoDot(a) && NoDot(b)
  {
    PiecesJoin(s);
    var (a, b, c) := Pieces(s).value;
    assert s == a + "." + b + "." + c && NoDot(a) && NoDot(b);
  }

  lemma DayTokenPadded(n: int)
    requires 1 <= n <= 31
    ensures DayToken(Pad(n, 2)) == Some(n)
  {
    PadTwo(n);
  }

  lemma MonthTokenPadded(n: int)
    requires 1 <= n <= 12
    ensures MonthToken(Pad(n, 2)) == Some(n)
  {
    PadTwo(n);
  }

  /** Every date reads back from its DD.MM.YYYY text. */
  lemma ParseFormatDmy(d: Date)
    requires IsValid(d)
    ensures ParseBirthday(FormatDmy(d)) == Ok(d)
  {
    var a, b, c := Pad(d.day, 2), Pad(d.month, 2), Pad(d.year, 4);
    DayTokenPadded(d.day);
    MonthTokenPadded(d.month);
    ValuePad(d.year, 4);
    assert NoDot(a) && NoDot(b) by {
      assert forall i :: 0 <= i < |a| ==> IsDigit(a[i]);
      assert forall i :: 0 <= i < |b| ==> IsDigit(b[i]);
    }
    ParseBirthdayParts(a, b, c);
  }

  /** The 31st of February is refused. */
  lemma NoThirtyFirstOfFebruary()
    ensures ParseBirthday("31.02.2024") == Err(ValueError)
  {
    assert "31.02.2024" == "31" + "." + "02" + "." + "2024";
    YearValue("2024", 2024);
    assert DayToken("31") == Some(31) && MonthToken("02") == Some(2);
    assert DaysInMonth(2024, 2) < 31;
    ParseBirthdayParts("31", "02", "2024");
  }

  /** The 29th of February is refused in a common year. */
  lemma NoTwentyNinthOfFebruaryInCommonYear()
    ensures ParseBirthday("29.02.2023") == Err(ValueError)
  {
    assert "29.02.2023" == "29" + "." + "02" + "." + "2023";
    YearValue("2023", 2023);
    assert DayToken("29") == Some(29) && MonthToken("02") == Some(2);
    assert DaysInMonth(2023, 2) == 28 by {
      assert !IsLeapYear(2023);
    }
    ParseBirthdayParts("29", "02", "2023");
  }

  /** The 29th of February is a birthday in a leap year. */
  lemma TwentyNinthOfFebruaryInLeapYear()
    ensures ParseBirthday("29.02.2024") == Ok(Date(2024, 2, 29))
  {
    assert "29.02.2024" == "29" + "." + "02" + "." + "2024";
    YearValue("2024", 2024);
    assert DayToken("29") == Some(29) && MonthToken("02") == Some(2);
    assert IsValid(Date(2024, 2, 29)) by {
      assert IsLeapYear(2024);
    }
    ParseBirthdayParts("29", "02", "2024");
  }

  lemma YearValue(t: string, y: nat)
    requires y < 10000 && t == Pad(y, 4)
    ensures YearToken(t) == Some(y)
  {
    ValuePad(y, 4);
  }
}
