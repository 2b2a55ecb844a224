# Address book assistant — a verified model

The program is a console assistant that keeps an address book: each
contact (a `Record`) has a name, a list of ten-digit phone numbers and an
optional birthday; the book (`AddressBook`) maps names to records and can
list the contacts to congratulate in the coming days, moving a birthday
that falls on a weekend to the following Monday. A thin command layer
splits a typed line into a command and its arguments, runs the command
against the book, and turns the errors a command raises into fixed
replies.

The model is split the way the program is:

- `exceptions.dfy` — the exceptions the code raises and catches
  (`ValueError`, `IndexError`, `KeyError`, `NameError`, `OverflowError`),
  and `Result`/`Status` values standing for "returned" or "raised".
- `text.dfy` — digit strings: reading them as numbers and writing numbers
  zero-padded to a width.
- `calendar.dfy` — the part of Python's `datetime.date` the program relies
  on: day numbers as `toordinal` counts them, `weekday()`,
  `date + timedelta(k)` with its `OverflowError` outside years 1..9999,
  comparison, and `strftime("%Y.%m.%d")`.
- `fields.dfy` — `Phone` (exactly ten ASCII digits) and `Birthday`
  (`strptime(value, "%d.%m.%Y")`, with the alternatives `strptime`
  accepts for each field, restricted to ASCII digits).
- `record.dfy` — `class Record` with its phones and birthday as fields the
  methods update in place; the loop of `remove_phone` is kept as a `while`
  loop over the list it shrinks.
- `addr_book.dfy` — `class AddressBook`: a `map` from names to records
  plus the sequence of keys in dictionary order; `get_birthdays` as a
  method with its two loops, proved equal to a function on values, about
  which soundness, completeness and the error cases are proved.
- `bot_helper.dfy` — `parse_input`, `input_error` and the commands `add`,
  `change`, `phone` and `add-birthday`, as methods over a book.

Three behaviours of the code that are easy to misread:

- A birthday's day and month need not be two digits: `strptime`'s `%d`
  and `%m` also take `5` and, for the day, ` 5`, so `"5.3.1990"` is a
  birthday (`Fields.DayToken`, `Fields.MonthToken`).
- `remove_phone` does not always remove every copy of the number. The
  loop walks the list by position while `list.remove` shrinks it, so of
  two equal phones side by side the second one slides into the slot the
  loop has already passed and stays (`Records.SweepAdjacentPair`). One
  stored copy is always removed (`Records.SweepShrinks`), and no other
  phone is touched (`Records.SweepKeepsOthers`).
- `edit_phone` checks the new number only when it adds it, after the old
  one is already removed: an invalid new number loses the old one
  (`Records.Record.EditPhone`).

## Model

| member | source | states |
|---|---|---|
| Fields.MakePhone | AddrBook.py:24-36 | A phone is built exactly when the number is ten ASCII digits, and holds the number unchanged; otherwise ValueError |
| Fields.PhoneEquals | AddrBook.py:38-42 | Two phones are equal exactly when their numbers are equal |
| Fields.PhoneCheckDifference | AddrBook.py:31-36 | The check as written accepts every ten-digit number, and accepts nothing else except nine digits followed by a newline |
| Fields.PassesPhoneCheckAsWritten | AddrBook.py:31-36 | The check as written: length 10 and `^\d+$`, whose `$` also matches before a final newline (compared with the intended check in PhoneCheckDifference) |
| Fields.NewlineSlipsThroughAsWritten | AddrBook.py:32-33 | "012345678\n" passes the check as written but is not ten digits |
| Fields.DayToken | AddrBook.py:51 | A day field strptime accepts denotes a day from 1 to 31 |
| Fields.MonthToken | AddrBook.py:51 | A month field strptime accepts denotes a month from 1 to 12 |
| Fields.YearToken | AddrBook.py:51 | A year field is accepted exactly when it is four digits, and denotes 0..9999 |
| Fields.Pieces | AddrBook.py:51 | The text split at its first two dots into day, month and year fields; None when it has fewer than two dots (proved inverse of joining in PiecesOfJoin and PiecesJoin) |
| Fields.FirstDot | AddrBook.py:51 | The first dot of the text: no dot before it, a dot at it |
| Fields.ParseBirthday | AddrBook.py:48-55 | A built birthday is a real date of years 1..9999; every failure is ValueError |
| Fields.ParseBirthdayParts | AddrBook.py:48-55 | day.month.year text gives a birthday exactly when each field is accepted and together they name a real date, and then it is that date |
| Fields.ParseBirthdayNeedsTwoDots | AddrBook.py:51 | Text that gives a birthday has the form a.b.c with no dot in a or b |
| Fields.PiecesOfJoin | AddrBook.py:51 | Text joined from two dot-free fields and a tail splits back into them |
| Fields.PiecesJoin | AddrBook.py:51 | The three fields split off always join back into the text |
| Fields.ParseFormatDmy | AddrBook.py:48-55 | Every date of years 1..9999 written DD.MM.YYYY reads back as that date |
| Fields.NoThirtyFirstOfFebruary | AddrBook.py:48-55 | "31.02.2024" raises ValueError |
| Fields.NoTwentyNinthOfFebruaryInCommonYear | AddrBook.py:48-55 | "29.02.2023" raises ValueError |
| Fields.TwentyNinthOfFebruaryInLeapYear | AddrBook.py:48-55 | "29.02.2024" is the birthday 2024-02-29 |
| Records.Record.constructor | AddrBook.py:59-62 | A new record has its name, no phones and no birthday |
| Records.Record.AddPhone | AddrBook.py:64-67 | A valid number is appended after the others, duplicates included; an invalid one raises ValueError and changes nothing |
| Records.Record.AddBirthday | AddrBook.py:69-72 | A valid date replaces the birthday; invalid text raises ValueError and keeps the old one |
| Records.Record.RemovePhone | AddrBook.py:74-78 | An invalid number raises ValueError and changes nothing; otherwise the phones are what the loop over the shrinking list leaves |
| Records.Record.FindPhone | AddrBook.py:85-90 | The phone is found exactly when the number is valid and stored; ValueError otherwise |
| Records.Record.EditPhone | AddrBook.py:80-83 | A missing or invalid old number raises ValueError and changes nothing; otherwise the old number is removed and the new one appended when valid, and an invalid new one raises ValueError with the old one already gone |
| Records.FirstIndex | AddrBook.py:77 | The position list.remove looks for: a copy of x with no copy before it |
| Records.RemoveFirst | AddrBook.py:77 | list.remove shortens a list holding x by one, dropping its first copy (RemoveFirstMultiset, RemoveFirstSplit); the absent case, where Python raises ValueError, cannot arise at line 77, where the phone was just read from the list, and the model returns the list unchanged there |
| Records.RemoveFirstMultiset | AddrBook.py:77 | list.remove takes away exactly one copy of x and nothing else |
| Records.RemoveFirstSplit | AddrBook.py:77 | In p + [x] + q with no x in p, list.remove leaves p + q |
| Records.Sweep | AddrBook.py:74-78 | The phones the loop of remove_phone leaves once it has reached index i, each match removing the first equal phone; never longer than before (its effect is proved in SweepAbsent, SweepSingle, SweepAdjacentPair, SweepKeepsOthers and SweepShrinks) |
| Records.SweepAbsent | AddrBook.py:74-78 | Removing a number that is not stored changes nothing |
| Records.SweepSingle | AddrBook.py:74-78 | Removing a number stored once drops it and keeps the other phones in order |
| Records.SweepAdjacentPair | AddrBook.py:74-78 | Removing a number stored twice side by side leaves one copy |
| Records.SweepKeepsOthers | AddrBook.py:74-78 | The loop never removes or reorders a phone other than the number removed |
| Records.SweepShrinks | AddrBook.py:74-78 | The loop only removes copies of the number: the count of every other phone stays the same, and the count of the number drops by at least one when it is stored |
| Records.Without | AddrBook.py:107-108 | A sequence with every copy of one element dropped, the others in order: the key order after `del` |
| Records.WithoutMembers | AddrBook.py:107-108 | After `del` the key order holds exactly the other keys, still distinct, and is unchanged when the key is absent |
| AddrBook.AddressBook.constructor | AddrBook.py:99 | A new book is empty |
| AddrBook.AddressBook.AddRecord | AddrBook.py:101-102 | The record is stored under its name, replacing any earlier one; a new name goes last in the key order; no record changes |
| AddrBook.AddressBook.Find | AddrBook.py:104-105 | The record is found exactly when the name is a key, and it carries that name; KeyError otherwise |
| AddrBook.AddressBook.Delete | AddrBook.py:107-108 | The key and nothing else is removed; KeyError when it is absent |
| AddrBook.AddressBook.GetBirthdays | AddrBook.py:110-127 | The result equals Upcoming on the book's (name, birthday) entries in key order: OverflowError when today + period leaves the calendar, else the second loop's result |
| AddrBook.AddressBook.BirthdayEntries | AddrBook.py:112-113 | The first loop builds bd_dict: the names with a birthday, with it, in key order |
| AddrBook.CongratulationsLoop | AddrBook.py:116-127 | The second loop returns what Congratulations specifies: the kept congratulations in order, or the first error |
| AddrBook.WithBirthday | AddrBook.py:112-113 | bd_dict: the (name, birthday) pairs of the contacts with a birthday, in key order, never more than the entries (proved in WithBirthdayOrigins and WithBirthdayComplete) |
| AddrBook.ShiftOffWeekend | AddrBook.py:119-122 | The two tests as written: a Sunday moves one day on, then a Saturday two days on, each by date + timedelta (its meaning is ShiftOffWeekendMeaning) |
| AddrBook.Congratulate | AddrBook.py:118-126 | One turn of the loop: the birthday in today's year, moved off the weekend, kept when it lies between today and the end date; ValueError when the date does not exist (its meaning is CongratulateMeaning) |
| AddrBook.Congratulations | AddrBook.py:116-127 | The loop over bd_dict, the first error ending it (proved in CongratulationsOrigins, CongratulationsComplete, CongratulationsRaise and CongratulationsRaiser) |
| AddrBook.Upcoming | AddrBook.py:110-127 | get_birthdays on values: OverflowError when today + period leaves the calendar, otherwise the loop over bd_dict (proved in UpcomingSound, UpcomingComplete and UpcomingRaisesOnly) |
| AddrBook.Congratulation.CongratulationDate | AddrBook.py:125 | The "congratulation_date" entry: strftime("%Y.%m.%d") of the day (FormatYmd) |
| AddrBook.CongratulationDay | AddrBook.py:119-122 | The day a birthday is congratulated on is the date itself, or one or two days later, and is a weekday |
| AddrBook.ShiftOffWeekendMeaning | AddrBook.py:119-122 | The two tests move a Sunday one day and a Saturday two days on, to the Monday after, and never overflow |
| AddrBook.CongratulateMeaning | AddrBook.py:118-125 | A birthday with no date in today's year raises ValueError; otherwise it is kept exactly when its congratulation day lies between today and the end date |
| AddrBook.CongratulationsKeepError | AddrBook.py:117-127 | Once one birthday raises, the later ones do not change the outcome |
| AddrBook.CongratulationsOrigins | AddrBook.py:117-127 | Every entry of the list comes from a birthday the loop keeps, in order |
| AddrBook.CongratulationsComplete | AddrBook.py:117-127 | Every birthday the loop keeps is in the list |
| AddrBook.CongratulationsRaise | AddrBook.py:117-127 | The loop raises when any birthday raises |
| AddrBook.CongratulationsRaiser | AddrBook.py:117-127 | When the loop raises, some birthday raised that error |
| AddrBook.WithBirthdayOrigins | AddrBook.py:112-113 | bd_dict holds only contacts that have a birthday, in the book's order |
| AddrBook.WithBirthdayComplete | AddrBook.py:112-113 | bd_dict holds every contact that has a birthday |
| AddrBook.UpcomingSound | AddrBook.py:110-127 | Every congratulation is a contact with a birthday, in the book's order, on a weekday between today and today + period, zero to two days after the birthday in this year |
| AddrBook.UpcomingComplete | AddrBook.py:110-127 | Every contact whose congratulation day lies between today and today + period is listed |
| AddrBook.UpcomingLeapDayRaises | AddrBook.py:118 | A birthday on 29 February raises ValueError in a common year |
| AddrBook.UpcomingRaisesOnly | AddrBook.py:110-127 | With a period inside the calendar, the only error is ValueError, and it comes from a birthday with no date in this year |
| Calendar.DaysInMonth | AddrBook.py:118 | Months have 28 to 31 days, 29 only for February of a leap year |
| Calendar.Ordinal | AddrBook.py:115 | toordinal(): the day number of a date, 1 for 0001-01-01 (increasing with the date: OrdinalLess, OrdinalInjective) |
| Calendar.FromOrdinalOrdinal | AddrBook.py:115 | fromordinal(toordinal(d)) is d: the day number names the date |
| Calendar.Before | AddrBook.py:124 | `<` on dates: year, then month, then day (agrees with day numbers: BeforeIsOrdinalLess) |
| Calendar.NotAfter | AddrBook.py:124 | `<=` on dates (agrees with day numbers: NotAfterIsOrdinalAtMost) |
| Calendar.NextDay | AddrBook.py:115 | The next date is a calendar date one day number later |
| Calendar.FromOrdinal | AddrBook.py:115 | The date with a given day number |
| Calendar.AddDays | AddrBook.py:115 | date + timedelta(k) succeeds exactly when the result is in years 1..9999, and then it is k day numbers later; OverflowError otherwise |
| Calendar.AddDaysWeekday | AddrBook.py:119-122 | k days later the weekday has moved on by k modulo 7 |
| Calendar.AddOneDay | AddrBook.py:120 | Adding one day gives the next calendar day |
| Calendar.Weekday | AddrBook.py:119-121 | weekday() is 0 (Monday) to 6 (Sunday) |
| Calendar.OrdinalBoundsYear | AddrBook.py:115 | A calendar date is in years 1..9999 exactly when its day number is at most that of 9999-12-31 |
| Calendar.BeforeIsOrdinalLess | AddrBook.py:124 | Comparing dates field by field agrees with comparing day numbers |
| Calendar.OrdinalLess | AddrBook.py:124 | A smaller day number means an earlier date |
| Calendar.OrdinalInjective | AddrBook.py:115 | Two calendar dates with the same day number are the same date |
| Calendar.NotAfterIsOrdinalAtMost | AddrBook.py:124 | `<=` on dates is `<=` on day numbers |
| Calendar.LastDayIsFriday | AddrBook.py:119-122 | 9999-12-31 is a Friday, so no weekend shift leaves the calendar |
| Calendar.FormatYmd | AddrBook.py:125 | strftime("%Y.%m.%d") gives ten characters: four digits reading as the year, a dot, two digits reading as the month, a dot, two digits reading as the day |
| Calendar.FormatYmdInjective | AddrBook.py:125 | Different dates get different congratulation texts |
| Text.ValuePad | AddrBook.py:125 | A number written with enough zero-padded digits reads back as itself |
| BotHelper.IsSpace | 08_bot_helper.py:118 | The characters str.split() breaks on: those for which str.isspace() holds |
| BotHelper.Words | 08_bot_helper.py:118 | str.split() gives non-empty words without whitespace |
| BotHelper.WordsOfUnwords | 08_bot_helper.py:118 | Splitting words joined by spaces gives the words back |
| BotHelper.BlankHasNoWords | 08_bot_helper.py:118 | A line has no words exactly when it is all whitespace |
| BotHelper.Lower | 08_bot_helper.py:119 | lower() maps each character to its lower-case form |
| BotHelper.ParseInput | 08_bot_helper.py:117-120 | A blank line raises ValueError; otherwise the first word lower-cased is the command and the other words are the arguments |
| BotHelper.ParseUnwords | 08_bot_helper.py:117-120 | A command and its arguments typed with spaces between them parse back into them |
| BotHelper.InputError | 08_bot_helper.py:99-114 | ValueError, IndexError, KeyError and NameError give their fixed replies; any other exception gives "Error: " and its message |
| BotHelper.AddContact | 08_bot_helper.py:123-132 | A known name gets the phone appended to its record; a new name gets a new record holding just that phone, added last; a missing or invalid phone changes nothing and gives its reply; no other record changes |
| BotHelper.ChangeContact | 08_bot_helper.py:135-139 | Missing arguments or an unknown name give their replies and change nothing; otherwise the named record's phones change as edit_phone changes them, with its reply, and nothing else changes |
| BotHelper.ShowPhone | 08_bot_helper.py:142-145 | The record of a known name; "Name not Found." for an unknown one |
| BotHelper.AddBirthday | 08_bot_helper.py:159-163 | A known name with a valid date gets that birthday and nothing else changes; otherwise the reply of the error and no change |
| BotHelper.Session | 08_bot_helper.py:123-163 | On a new book, adding a contact with a valid phone, then a valid birthday, then showing it gives exactly that phone and that birthday |
| BotHelper.ChangeSession | 08_bot_helper.py:123-139 | Changing a new contact's only phone to a valid number leaves exactly the new number |

## Left out

- Today's date: `get_birthdays` reads the clock; `GetBirthdays` takes `today` as a parameter.
- BotHelper.Lower: lower-cases ASCII letters only; `str.lower` also folds non-ASCII letters.
- Fields.DayToken, Fields.YearToken: `strptime` matches `\d` in `%d` and `%Y` as a str pattern, so non-ASCII decimal digits (such as `"1٥"` for 15) are accepted and read by `int()`; the model accepts ASCII digits only.
- Fields.MakePhone: `\d` in the source's pattern also matches non-ASCII decimal digits; the model accepts ASCII digits only.
- Fields.MakePhone: follows the evidently intended check; the check as written is `Fields.PassesPhoneCheckAsWritten` (see Findings).
- BotHelper.AddContact: requires non-empty arguments, which is what `parse_input` produces; `Name("")` leaves the name unset and is not modelled (`Records.Record.constructor` requires a non-empty name).
- The `Name` and `Field` wrapper classes are flattened: a record's name is a string.
- Calendar.FormatYmd: `strftime("%Y")` of a year below 1000 is platform dependent; the model pads to four digits.
- `show_all`, `show_birthday` (the same as `show_phone`), the `__str__` methods, `save_data`/`load_data` (pickle files), the console user interface, the pandas table and the `main` loop (which also lower-cases the whole line before `parse_input`) are not part of this model.
- `input_error` catches any other exception; the only other exceptions the modelled commands can raise are covered by `OverflowError` and `Other`.
- Object identity beyond records: phones are values, and `Phone.__eq__` against a non-phone is not modelled.

## Findings

| source | as written | input that shows it | evidently intended | confidence | as-written member | corrected member |
|---|---|---|---|---|---|---|
| AddrBook.py:32-33 | the number must have length 10 and match `^\d+$`, whose `$` also matches before a final newline | "012345678\n" (nine digits and a newline) is accepted as a phone (Fields.NewlineSlipsThroughAsWritten) | exactly ten digits | not executed | Fields.PassesPhoneCheckAsWritten | Fields.MakePhone |
