/** The contact book: records keyed by name, kept in insertion order, and
    the list of upcoming birthdays (class AddressBook, AddrBook.py:99-127). */
module AddrBook {
  import opened Exceptions
  import opened Calendar
  import opened Fields
  import opened Records

  /** One entry of the list get_birthdays returns: the contact's name and
      the day to congratulate them on. */
  datatype Congratulation = Congratulation(name: string, date: Date) {
    /** The "congratulation_date" text: strftime("%Y.%m.%d"). */
    function CongratulationDate(): string
      requires IsValid(date)
    {
      FormatYmd(date)
    }
  }

  // ---------------------------------------------------------------------
  // get_birthdays, on values

  /** bd_dict: the names that have a birthday, with that birthday, in order. */
  function WithBirthday(es: seq<(string, Option<Date>)>): (bs: seq<(string, Date)>)
    ensures |bs| <= |es|
  {
    if es == [] then []
    else
      var last := es[|es| - 1];
      WithBirthday(es[..|es| - 1]) + (if last.1.Some? then [(last.0, last.1.value)] else [])
  }

  /** The two tests of the loop body: a Sunday moves one day on, then a
      Saturday two days on. */
  function ShiftOffWeekend(p: Date): (r: Result<Date>)
    requires IsValid(p)
  {
    var r1 := if Weekday(p) == 6 then AddDays(p, 1) else Ok(p);
    if r1.Err? then r1
    else
      var p1 := r1.value;
      if Weekday(p1) == 5 then AddDays(p1, 2) else Ok(p1)
  }

  /** One turn of the loop: the birthday projected into today's year,
      moved off the weekend, and kept when it lies between today and end.
      ValueError when the projection is no date (29 February outside a
      leap year). */
  function Congratulate(name: string, b: Date, today: Date, end: Date): (r: Result<Option<Congratulation>>)
    requires IsValid(today)
  {
    var p := Date(today.year, b.month, b.day);
    if !IsValid(p) then Err(ValueError)
    else
      var shifted := ShiftOffWeekend(p);
      if shifted.Err? then Err(shifted.error)
      else
        var q := shifted.value;
        if NotAfter(q, end) && NotAfter(today, q) then Ok(Some(Congratulation(name, q)))
        else Ok(None)
  }

  /** The loop over bd_dict: the first error ends it. */
  function Congratulations(bs: seq<(string, Date)>, today: Date, end: Date): (r: Result<seq<Congratulation>>)
    requires IsValid(today)
  {
    if bs == [] then Ok([])
    else
      var last := bs[|bs| - 1];
      Append(Congratulations(bs[..|bs| - 1], today, end), Congratulate(last.0, last.1, today, end))
  }

  /** The list so far, after one more turn of the loop. */
  function Append(prev: Result<seq<Congratulation>>, r: Result<Option<Congratulation>>): Result<seq<Congratulation>> {
    if prev.Err? then prev
    else if r.Err? then Err(r.error)
    else if r.value.None? then prev
    else Ok(prev.value + [r.value.value])
  }

  /** get_birthdays(period) on the book's (name, birthday) entries, with
      today given: OverflowError when today + period leaves the calendar. */
  function Upcoming(es: seq<(string, Option<Date>)>, today: Date, period: int): (r: Result<seq<Congratulation>>)
    requires IsValid(today)
    ensures AddDays(today, period).Err? ==> r == Err(OverflowError)
  {
    var end := AddDays(today, period);
    if end.Err? then Err(end.error) else Congratulations(WithBirthday(es), today, end.value)
  }

  // ---------------------------------------------------------------------
  // The book

  class AddressBook {
    var data: map<string, Record>
    /** The keys of data in the order the dict iterates them. */
    var keys: seq<string>

    ghost predicate Valid()
      reads this
    {
      (forall k :: k in data ==> data[k].name == k) &&
      (forall k :: k in data <==> k in keys) &&
      Distinct(keys)
    }

    constructor ()
      ensures Valid() && data == map[] && keys == []
    {
      data := map[];
      keys := [];
    }

    /** The (name, birthday) pairs of the records in the book's order. */
    ghost function EntriesOf(ks: seq<string>): (es: seq<(string, Option<Date>)>)
      reads this, data.Values
      requires forall k :: k in ks ==> k in data
      ensures |es| == |ks|
      ensures forall i :: 0 <= i < |ks| ==> es[i] == (ks[i], data[ks[i]].birthday)
    {
      if ks == [] then []
      else
        var k := ks[|ks| - 1];
        EntriesOf(ks[..|ks| - 1]) + [(k, data[k].birthday)]
    }

    /** add_record: stores the record under its name, replacing any record
        of that name; a new name goes last in the order. */
    method AddRecord(record: Record)
      requires Valid()
      modifies this
      ensures Valid()
      ensures data == old(data)[record.name := record]
      ensures keys == if record.name in old(data) then old(keys) else old(keys) + [record.name]
    {
      if record.name !in data {
        keys := keys + [record.name];
      }
      data := data[record.name := record];
    }

    /** find: the record stored under key, KeyError when there is none. */
    function Find(key: string): (r: Result<Record>)
      reads this
      requires Valid()
      ensures r.Ok? <==> key in data
      ensures r.Ok? ==> r.value == data[key] && r.value.name == key
      ensures r.Err? ==> r.error == KeyError
    {
      if key in data then Ok(data[key]) else Err(KeyError)
    }

    /** delete: removes key and nothing else, KeyError when it is absent. */
    method Delete(key: string) returns (status: Status)
      requires Valid()
      modifies this
      ensures Valid()
      ensures status == if key in old(data) then Done else Raised(KeyError)
      ensures data == old(data) - {key}
      ensures keys == Without(old(keys), key)
    {
      WithoutMembers(keys, key);
      if key !in data {
        return Raised(KeyError);
      }
      data := data - {key};
      keys := Without(keys, key);
      return Done;
    }

    /** get_birthdays(period), with today passed in. */
    method GetBirthdays(today: Date, period: int) returns (r: Result<seq<Congratulation>>)
      requires Valid() && IsValid(today)
      ensures r == Upcoming(EntriesOf(keys), today, period)
    {
      var bd := BirthdayEntries();
      var end := AddDays(today, period);
      if end.Err? {
        return Err(end.error);
      }
      r := CongratulationsLoop(bd, today, end.value);
    }

    /** bd_dict: the first loop of get_birthdays. */
    method BirthdayEntries() returns (bd: seq<(string, Date)>)
      requires Valid()
      ensures bd == WithBirthday(EntriesOf(keys))
    {
      bd := [];
      var i := 0;
      while i < |keys|
        invariant 0 <= i <= |keys|
        invariant bd == WithBirthday(EntriesOf(keys[..i]))
      {
        var k := keys[i];
        var b := data[k].birthday;
        assert keys[..i + 1][..i] == keys[..i];
        if b.Some? {
          bd := bd + [(k, b.value)];
        }
        i := i + 1;
      }
      assert keys[..i] == keys;
    }
  }

  /** The second loop of get_birthdays: the first error ends it. */
  method CongratulationsLoop(bd: seq<(string, Date)>, today: Date, end: Date)
    returns (r: Result<seq<Congratulation>>)
    requires IsValid(today)
    ensures r == Congratulations(bd, today, end)
  {
    var list: seq<Congratulation> := [];
    var j := 0;
    while j < |bd|
      invariant 0 <= j <= |bd|
      invariant Congratulations(bd[..j], today, end) == Ok(list)
    {
      var (name, b) := bd[j];
      assert bd[..j + 1][..j] == bd[..j];
      ghost var turn := Congratulate(name, b, today, end);
      assert Congratulations(bd[..j + 1], today, end) == Append(Ok(list), turn);
      var p := Date(today.year, b.month, b.day);
      if !IsValid(p) {
        CongratulationsKeepError(bd, j + 1, today, end);
        return Err(ValueError);
      }
      if Weekday(p) == 6 {
        var next := AddDays(p, 1);
        if next.Err? {
          CongratulationsKeepError(bd, j + 1, today, end);
          return Err(next.error);
        }
        p := next.value;
      }
      if Weekday(p) == 5 {
        var next := AddDays(p, 2);
        if next.Err? {
          CongratulationsKeepError(bd, j + 1, today, end);
          return Err(next.error);
        }
        p := next.value;
      }
      if NotAfter(p, end) && NotAfter(today, p) {
        list := list + [Congratulation(name, p)];
      }
      j := j + 1;
    }
    assert bd[..j] == bd;
    return Ok(list);
  }

  /** Once the loop has raised, the rest of the entries do not matter. */
  lemma {:induction false} CongratulationsKeepError(bs: seq<(string, Date)>, n: nat, today: Date, end: Date)
    requires IsValid(today) && n <= |bs|
    requires Congratulations(bs[..n], today, end).Err?
    ensures Congratulations(bs, today, end) == Congratulations(bs[..n], today, end)
    decreases |bs| - n
  {
    if n < |bs| {
      assert bs[..n + 1][..n] == bs[..n];
      CongratulationsKeepError(bs, n + 1, today, end);
    } else {
      assert bs[..n] == bs;
    }
  }

  // ---------------------------------------------------------------------
  // What get_birthdays promises

  /** How many days a date on weekday w moves: Sunday one, Saturday two. */
  function WeekendShift(w: int): (s: int)
    ensures 0 <= s <= 2
  {
    if w == 6 then 1 else if w == 5 then 2 else 0
  }

  /** The day a birthday falling on p is congratulated on: p itself, or the
      Monday after when p is a Saturday or a Sunday. */
  function CongratulationDay(p: Date): (d: Date)
    requires IsValid(p)
    ensures IsValid(d)
    ensures Ordinal(d) == Ordinal(p) + WeekendShift(Weekday(p))
    ensures Weekday(d) < 5
  {
    ShiftStaysInCalendar(p);
    var d := FromOrdinal(Ordinal(p) + WeekendShift(Weekday(p)));
    OrdinalBoundsYear(d);
    ShiftedWeekday(p, d);
    d
  }

  /** A weekend date moved on by its shift falls on a Monday. */
  lemma ShiftedWeekday(p: Date, d: Date)
    requires IsCalendarDay(p) && IsCalendarDay(d)
    requires Ordinal(d) == Ordinal(p) + WeekendShift(Weekday(p))
    ensures Weekday(d) < 5
  {
    ShiftedDayNumber(Ordinal(p) + 6, Ordinal(d) + 6);
  }

  lemma ShiftedDayNumber(x: int, y: int)
    requires y == x + WeekendShift(x % 7)
    ensures y % 7 < 5
  {
    var w := x % 7;
    ShiftMod7(x, WeekendShift(w));
    if w == 5 || w == 6 {
      assert (w + WeekendShift(w)) % 7 == 0;
    }
  }

  /** Moving a weekend date to Monday never passes 9999-12-31, a Friday. */
  lemma ShiftStaysInCalendar(p: Date)
    requires IsValid(p)
    ensures Ordinal(p) + WeekendShift(Weekday(p)) <= MaxOrdinal
  {
    OrdinalBoundsYear(p);
    LastDayIsFriday();
  }

  /** The two tests of the loop body move a weekend date to the Monday
      after, and never overflow. */
  lemma ShiftOffWeekendMeaning(p: Date)
    requires IsValid(p)
    ensures ShiftOffWeekend(p) == Ok(CongratulationDay(p))
  {
    var d := CongratulationDay(p);
    var w := Weekday(p);
    ShiftStaysInCalendar(p);
    if w == 6 {
      var p1 := AddDays(p, 1).value;
      AddDaysWeekday(p, 1);
      OrdinalInjective(p1, d);
    } else if w == 5 {
      var p2 := AddDays(p, 2).value;
      OrdinalInjective(p2, d);
    } else {
      OrdinalInjective(p, d);
    }
  }

  /** One turn of the loop: a birthday whose date in today's year does not
      exist raises ValueError; otherwise it is congratulated on its
      CongratulationDay exactly when that day lies between today and end. */
  lemma CongratulateMeaning(name: string, b: Date, today: Date, end: Date)
    requires IsValid(today)
    ensures var p := Date(today.year, b.month, b.day);
            !IsValid(p) ==> Congratulate(name, b, today, end) == Err(ValueError)
    ensures var p := Date(today.year, b.month, b.day);
            IsValid(p) ==>
              var d := CongratulationDay(p);
              Congratulate(name, b, today, end) ==
                Ok(if NotAfter(today, d) && NotAfter(d, end) then Some(Congratulation(name, d)) else None)
  {
    var p := Date(today.year, b.month, b.day);
    if IsValid(p) {
      ShiftOffWeekendMeaning(p);
    }
  }

  /** Every congratulation comes from an entry, in the entries' order. */
  lemma {:induction false} CongratulationsOrigins(bs: seq<(string, Date)>, today: Date, end: Date)
    returns (idx: seq<int>)
    requires IsValid(today) && Congratulations(bs, today, end).Ok?
    ensures var cs := Congratulations(bs, today, end).value;
            |idx| == |cs| &&
            (forall i :: 0 <= i < |idx| ==>
               0 <= idx[i] < |bs| &&
               Congratulate(bs[idx[i]].0, bs[idx[i]].1, today, end) == Ok(Some(cs[i])))
    ensures forall i, j :: 0 <= i < j < |idx| ==> idx[i] < idx[j]
  {
    if bs == [] {
      return [];
    }
    var n := |bs| - 1;
    var init := bs[..n];
    idx := CongratulationsOrigins(init, today, end);
    var r := Congratulate(bs[n].0, bs[n].1, today, end);
    if r.value.Some? {
      idx := idx + [n];
    }
  }

  /** Every entry the loop keeps is in the result. */
  lemma {:induction false} CongratulationsComplete(bs: seq<(string, Date)>, today: Date, end: Date, k: int)
    requires IsValid(today) && Congratulations(bs, today, end).Ok?
    requires 0 <= k < |bs| && Congratulate(bs[k].0, bs[k].1, today, end).Ok?
    requires Congratulate(bs[k].0, bs[k].1, today, end).value.Some?
    ensures Congratulate(bs[k].0, bs[k].1, today, end).value.value in Congratulations(bs, today, end).value
  {
    var n := |bs| - 1;
    if k < n {
      assert bs[..n][k] == bs[k];
      CongratulationsComplete(bs[..n], today, end, k);
    }
  }

  /** The loop raises as soon as one entry does. */
  lemma {:induction false} CongratulationsRaise(bs: seq<(string, Date)>, today: Date, end: Date, k: int)
    requires IsValid(today) && 0 <= k < |bs|
    requires Congratulate(bs[k].0, bs[k].1, today, end).Err?
    ensures Congratulations(bs, today, end).Err?
  {
    var n := |bs| - 1;
    var prev := Congratulations(bs[..n], today, end);
    var r := Congratulate(bs[n].0, bs[n].1, today, end);
    assert Congratulations(bs, today, end) == Append(prev, r);
    if k < n {
      assert bs[..n][k] == bs[k];
      CongratulationsRaise(bs[..n], today, end, k);
    }
    AppendKeepsError(prev, r);
  }

  lemma AppendKeepsError(prev: Result<seq<Congratulation>>, r: Result<Option<Congratulation>>)
    ensures prev.Err? || r.Err? ==> Append(prev, r).Err?
  {
  }

  /** When the loop raises, some entry raised. */
  lemma {:induction false} CongratulationsRaiser(bs: seq<(string, Date)>, today: Date, end: Date)
    returns (k: int)
    requires IsValid(today) && Congratulations(bs, today, end).Err?
    ensures 0 <= k < |bs| && Congratulate(bs[k].0, bs[k].1, today, end) == Err(Congratulations(bs, today, end).error)
  {
    var n := |bs| - 1;
    if Congratulations(bs[..n], today, end).Err? {
      k := CongratulationsRaiser(bs[..n], today, end);
      assert bs[..n][k] == bs[k];
    } else {
      k := n;
    }
  }

  /** bd_dict keeps exactly the entries that have a birthday, in order. */
  lemma {:induction false} WithBirthdayOrigins(es: seq<(string, Option<Date>)>) returns (idx: seq<int>)
    ensures var bs := WithBirthday(es);
            |idx| == |bs| &&
            (forall i :: 0 <= i < |idx| ==> 0 <= idx[i] < |es| && es[idx[i]] == (bs[i].0, Some(bs[i].1)))
    ensures forall i, j :: 0 <= i < j < |idx| ==> idx[i] < idx[j]
  {
    if es == [] {
      return [];
    }
    var n := |es| - 1;
    idx := WithBirthdayOrigins(es[..n]);
    if es[n].1.Some? {
      idx := idx + [n];
    }
  }

  lemma {:induction false} WithBirthdayComplete(es: seq<(string, Option<Date>)>, k: int) returns (m: int)
    requires 0 <= k < |es| && es[k].1.Some?
    ensures 0 <= m < |WithBirthday(es)| && WithBirthday(es)[m] == (es[k].0, es[k].1.value)
  {
    var n := |es| - 1;
    if k < n {
      assert es[..n][k] == es[k];
      m := WithBirthdayComplete(es[..n], k);
    } else {
      m := |WithBirthday(es[..n])|;
    }
  }

  /** get_birthdays, sound: every entry returned is a contact with a
      birthday, in the book's order, congratulated on a weekday between today
      and today + period, at most two days after the birthday's date in
      today's year (no roll-over into the next year). */
  lemma UpcomingSound(es: seq<(string, Option<Date>)>, today: Date, period: int) returns (idx: seq<int>)
    requires IsValid(today) && Upcoming(es, today, period).Ok?
    ensures var cs := Upcoming(es, today, period).value;
            |idx| == |cs| &&
            (forall i :: 0 <= i < |idx| ==>
               0 <= idx[i] < |es| && es[idx[i]].0 == cs[i].name && es[idx[i]].1.Some? &&
               var b := es[idx[i]].1.value;
               var p := Date(today.year, b.month, b.day);
               IsValid(p) && cs[i].date == CongratulationDay(p) &&
               IsValid(cs[i].date) && Weekday(cs[i].date) < 5 &&
               Ordinal(today) <= Ordinal(cs[i].date) <= Ordinal(today) + period &&
               Ordinal(p) <= Ordinal(cs[i].date) <= Ordinal(p) + 2)
    ensures forall i, j :: 0 <= i < j < |idx| ==> idx[i] < idx[j]
  {
    var end := AddDays(today, period).value;
    var bs := WithBirthday(es);
    var cs := Congratulations(bs, today, end).value;
    var outer := WithBirthdayOrigins(es);
    var inner := CongratulationsOrigins(bs, today, end);
    idx := seq(|inner|, i requires 0 <= i < |inner| => outer[inner[i]]);
    forall i | 0 <= i < |idx|
      ensures 0 <= idx[i] < |es| && es[idx[i]].0 == cs[i].name && es[idx[i]].1.Some? &&
              var b := es[idx[i]].1.value;
              var p := Date(today.year, b.month, b.day);
              IsValid(p) && cs[i].date == CongratulationDay(p) &&
              IsValid(cs[i].date) && Weekday(cs[i].date) < 5 &&
              Ordinal(today) <= Ordinal(cs[i].date) <= Ordinal(today) + period &&
              Ordinal(p) <= Ordinal(cs[i].date) <= Ordinal(p) + 2
    {
      CongratulationKept(bs[inner[i]].0, bs[inner[i]].1, today, end, cs[i]);
    }
  }

  /** What one kept entry holds, in day numbers. */
  lemma CongratulationKept(name: string, b: Date, today: Date, end: Date, c: Congratulation)
    requires IsValid(today) && IsValid(end)
    requires Congratulate(name, b, today, end) == Ok(Some(c))
    ensures var p := Date(today.year, b.month, b.day);
            c.name == name && IsValid(p) && c.date == CongratulationDay(p) &&
            IsValid(c.date) && Weekday(c.date) < 5 &&
            Ordinal(today) <= Ordinal(c.date) <= Ordinal(end) &&
            Ordinal(p) <= Ordinal(c.date) <= Ordinal(p) + 2
  {
    CongratulateMeaning(name, b, today, end);
    var p := Date(today.year, b.month, b.day);
    assert IsValid(p);
    InWindow(p, today, end, c.date);
  }

  lemma InWindow(p: Date, today: Date, end: Date, d: Date)
    requires IsValid(p) && IsValid(today) && IsValid(end)
    requires d == CongratulationDay(p) && NotAfter(today, d) && NotAfter(d, end)
    ensures Ordinal(today) <= Ordinal(d) <= Ordinal(end)
    ensures Ordinal(p) <= Ordinal(d) <= Ordinal(p) + 2
  {
    NotAfterIsOrdinalAtMost(today, d);
    NotAfterIsOrdinalAtMost(d, end);
  }

  /** get_birthdays, complete: every contact whose congratulation day lies
      between today and today + period is in the list. */
  lemma UpcomingComplete(es: seq<(string, Option<Date>)>, today: Date, period: int, k: int)
    requires IsValid(today) && Upcoming(es, today, period).Ok?
    requires 0 <= k < |es| && es[k].1.Some?
    requires var b := es[k].1.value;
             var p := Date(today.year, b.month, b.day);
             IsValid(p) && Ordinal(today) <= Ordinal(CongratulationDay(p)) <= Ordinal(today) + period
    ensures var b := es[k].1.value;
            Congratulation(es[k].0, CongratulationDay(Date(today.year, b.month, b.day)))
              in Upcoming(es, today, period).value
  {
    var end := AddDays(today, period).value;
    var bs := WithBirthday(es);
    var m := WithBirthdayComplete(es, k);
    var (name, b) := bs[m];
    var p := Date(today.year, b.month, b.day);
    var d := CongratulationDay(p);
    CongratulateMeaning(name, b, today, end);
    NotAfterIsOrdinalAtMost(today, d);
    NotAfterIsOrdinalAtMost(d, end);
    CongratulationsComplete(bs, today, end, m);
  }

  /** get_birthdays raises ValueError when a contact was born on 29
      February and the current year is not a leap year. */
  lemma UpcomingLeapDayRaises(es: seq<(string, Option<Date>)>, today: Date, period: int, k: int)
    requires IsValid(today) && AddDays(today, period).Ok?
    requires 0 <= k < |es| && es[k].1.Some?
    requires es[k].1.value.month == 2 && es[k].1.value.day == 29 && !IsLeapYear(today.year)
    ensures Upcoming(es, today, period) == Err(ValueError)
  {
    var end := AddDays(today, period).value;
    var bs := WithBirthday(es);
    var m := WithBirthdayComplete(es, k);
    CongratulateMeaning(bs[m].0, bs[m].1, today, end);
    CongratulationsRaise(bs, today, end, m);
    var j := CongratulationsRaiser(bs, today, end);
    CongratulateMeaning(bs[j].0, bs[j].1, today, end);
  }

  /** get_birthdays raises only OverflowError, for a period that leaves the
      calendar, or ValueError, for a birthday with no date in today's year. */
  lemma UpcomingRaisesOnly(es: seq<(string, Option<Date>)>, today: Date, period: int) returns (k: int)
    requires IsValid(today) && Upcoming(es, today, period).Err?
    requires AddDays(today, period).Ok?
    ensures Upcoming(es, today, period) == Err(ValueError)
    ensures 0 <= k < |es| && es[k].1.Some?
    ensures var b := es[k].1.value; !IsValid(Date(today.year, b.month, b.day))
  {
    var end := AddDays(today, period).value;
    var bs := WithBirthday(es);
    var j := CongratulationsRaiser(bs, today, end);
    CongratulateMeaning(bs[j].0, bs[j].1, today, end);
    var outer := WithBirthdayOrigins(es);
    k := outer[j];
  }
}
