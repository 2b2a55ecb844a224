/** The command layer of the assistant bot (08_bot_helper.py:99-163): it
    splits a command line, runs a command against the address book, and
    turns the exceptions a command raises into fixed replies. */
module BotHelper {
  import opened Exceptions
  import opened Calendar
  import opened Fields
  import opened Records
  import opened AddrBook

  // ---------------------------------------------------------------------
  // parse_input

  /** The characters str.split() breaks on (str.isspace). */
  predicate IsSpace(c: char) {
    '\t' <= c <= '\r' || '\U{1C}' <= c <= ' ' || c == '\U{85}' || c == '\U{A0}' ||
    c == '\U{1680}' || '\U{2000}' <= c <= '\U{200A}' || c == '\U{2028}' || c == '\U{2029}' ||
    c == '\U{202F}' || c == '\U{205F}' || c == '\U{3000}'
  }

  predicate NoSpace(w: string) {
    forall i :: 0 <= i < |w| ==> !IsSpace(w[i])
  }

  predicate IsWord(w: string) {
    w != [] && NoSpace(w)
  }

  predicate AllSpace(s: string) {
    forall i :: 0 <= i < |s| ==> IsSpace(s[i])
  }

  /** The length of the word s starts with. */
  function WordLength(s: string): (n: nat)
    requires s != [] && !IsSpace(s[0])
    ensures 1 <= n <= |s| && NoSpace(s[..n])
    ensures n < |s| ==> IsSpace(s[n])
  {
    if |s| == 1 || IsSpace(s[1]) then 1
    else
      var n := 1 + WordLength(s[1..]);
      assert s[..n] == [s[0]] + s[1..][..n - 1];
      n
  }

  /** str.split(): the maximal runs of non-space characters, in order. */
  function Words(s: string): (ws: seq<string>)
    ensures forall i :: 0 <= i < |ws| ==> IsWord(ws[i])
    decreases |s|
  {
    if s == [] then []
    else if IsSpace(s[0]) then Words(s[1..])
    else
      var n := WordLength(s);
      [s[..n]] + Words(s[n..])
  }

  /** Words joined by single spaces. */
  function Unwords(ws: seq<string>): string {
    if ws == [] then ""
    else if |ws| == 1 then ws[0]
    else ws[0] + " " + Unwords(ws[1..])
  }

  function LowerChar(c: char): char {
    if 'A' <= c <= 'Z' then (c as int - 'A' as int + 'a' as int) as char else c
  }

  /** str.lower() on ASCII letters. */
  function Lower(s: string): (r: string)
    ensures |r| == |s| && forall i :: 0 <= i < |s| ==> r[i] == LowerChar(s[i])
  {
    if s == [] then [] else [LowerChar(s[0])] + Lower(s[1..])
  }

  /** parse_input: the first word lower-cased and the other words as they
      are; ValueError when the line has no word to unpack. */
  function ParseInput(line: string): (r: Result<(string, seq<string>)>)
    ensures r.Err? <==> AllSpace(line)
    ensures r.Err? ==> r.error == ValueError
    ensures r.Ok? ==> Words(line) != [] && r.value.0 == Lower(Words(line)[0]) && r.value.1 == Words(line)[1..]
  {
    BlankHasNoWords(line);
    var ws := Words(line);
    if ws == [] then Err(ValueError) else Ok((Lower(ws[0]), ws[1..]))
  }

  lemma {:induction false} BlankHasNoWords(s: string)
    ensures Words(s) == [] <==> AllSpace(s)
    decreases |s|
  {
    if s != [] && IsSpace(s[0]) {
      BlankHasNoWords(s[1..]);
      assert AllSpace(s) <==> AllSpace(s[1..]) by {
        assert forall i :: 1 <= i < |s| ==> s[i] == s[1..][i - 1];
      }
    }
  }

  lemma {:induction false} WordLengthOfJoin(w: string, rest: string)
    requires IsWord(w)
    ensures WordLength(w + " " + rest) == |w|
  {
    var s := w + " " + rest;
    if |w| > 1 {
      assert s[1..] == w[1..] + " " + rest;
      WordLengthOfJoin(w[1..], rest);
    }
  }

  /** Splitting words joined by spaces gives the words back. */
  lemma {:induction false} WordsOfUnwords(ws: seq<string>)
    requires forall i :: 0 <= i < |ws| ==> IsWord(ws[i])
    ensures Words(Unwords(ws)) == ws
  {
    if |ws| == 1 {
      var w := ws[0];
      assert w + " " + "" == w + [' '];
      WordLengthOfJoin(w, "");
      var n := WordLength(w + [' ']);
      assert (w + [' '])[..n] == w;
      LastWord(w);
    } else if |ws| > 1 {
      var w, rest := ws[0], Unwords(ws[1..]);
      var s := w + " " + rest;
      WordLengthOfJoin(w, rest);
      assert s[..|w|] == w;
      assert s[|w|..] == " " + rest;
      assert (" " + rest)[1..] == rest;
      WordsOfUnwords(ws[1..]);
    }
  }

  lemma LastWord(w: string)
    requires IsWord(w)
    ensures Words(w) == [w]
  {
    var n := WordLength(w);
    assert w[..n] == w;
    assert w[n..] == [];
  }

  /** A command line made of a command and its arguments parses back into them. */
  lemma ParseUnwords(cmd: string, args: seq<string>)
    requires IsWord(cmd) && forall i :: 0 <= i < |args| ==> IsWord(args[i])
    ensures ParseInput(Unwords([cmd] + args)) == Ok((Lower(cmd), args))
  {
    var ws := [cmd] + args;
    WordsOfUnwords(ws);
    assert ws[0] == cmd && ws[1..] == args;
  }

  // ---------------------------------------------------------------------
  // input_error

  /** The reply input_error gives for an exception a command raised. */
  function InputError(e: Exc): (reply: string)
    ensures e == ValueError ==> reply == "Give me name and phone please."
    ensures e == IndexError ==> reply == "Command not Found."
    ensures e == KeyError || e == NameError ==> reply == "Name not Found."
    ensures e.Other? ==> reply == "Error: " + e.message
  {
    match e
    case ValueError => "Give me name and phone please."
    case IndexError => "Command not Found."
    case KeyError => "Name not Found."
    case NameError => "Name not Found."
    case OverflowError => "Error: date value out of range"
    case Other(message) => "Error: " + message
  }

  // ---------------------------------------------------------------------
  // Commands

  /** What a command hands back: the record it worked on, or a reply text. */
  datatype Reply = Contact(record: Record) | Message(text: string)

  /** The record a command's first argument names, if the book has one:
      the only record the command may change. */
  function Named(book: AddressBook, args: seq<string>): set<Record>
    reads book
  {
    if |args| > 0 && args[0] in book.data then {book.data[args[0]]} else {}
  }

  /** add_contact: a known name gets the phone appended to its record; a
      new name gets a new record holding just that phone, added to the
      book. A missing or invalid phone leaves the book as it was. */
  method AddContact(book: AddressBook, args: seq<string>) returns (reply: Reply)
    requires book.Valid()
    requires forall i :: 0 <= i < |args| ==> args[i] != []
    modifies book, Named(book, args)
    ensures book.Valid()
    ensures |args| < 2 ==> reply == Message("Command not Found.")
    ensures |args| >= 2 && !IsPhoneNumber(args[1]) ==> reply == Message("Give me name and phone please.")
    ensures (|args| < 2 || !IsPhoneNumber(args[1])) ==> unchanged(book) && unchanged(old(Named(book, args)))
    ensures |args| >= 2 && IsPhoneNumber(args[1]) && args[0] in old(book.data) ==>
              var record := old(book.data)[args[0]];
              unchanged(book) && reply == Contact(record) &&
              record.phones == old(record.phones) + [Phone(args[1])] &&
              record.birthday == old(record.birthday)
    ensures |args| >= 2 && IsPhoneNumber(args[1]) && args[0] !in old(book.data) ==>
              reply.Contact? && fresh(reply.record) && reply.record.name == args[0] &&
              reply.record.phones == [Phone(args[1])] && reply.record.birthday == None &&
              book.data == old(book.data)[args[0] := reply.record] && book.keys == old(book.keys) + [args[0]]
  {
    if |args| == 0 {
      return Message(InputError(IndexError));
    }
    var name := args[0];
    if name in book.data {
      var record := book.Find(name).value;
      if |args| < 2 {
        return Message(InputError(IndexError));
      }
      var status := record.AddPhone(args[1]);
      if status.Raised? {
        return Message(InputError(status.error));
      }
      return Contact(record);
    } else {
      var record := new Record(name);
      if |args| < 2 {
        return Message(InputError(IndexError));
      }
      var status := record.AddPhone(args[1]);
      if status.Raised? {
        return Message(InputError(status.error));
      }
      book.AddRecord(record);
      return Contact(record);
    }
  }

  /** change_contact: replaces a phone of a known contact by edit_phone. */
  method ChangeContact(book: AddressBook, args: seq<string>) returns (reply: Reply)
    requires book.Valid()
    modifies Named(book, args)
    ensures book.Valid()
    ensures |args| == 0 ==> reply == Message("Command not Found.")
    ensures |args| > 0 && args[0] !in book.data ==> reply == Message("Name not Found.")
    ensures |args| > 0 && args[0] in book.data && |args| < 3 ==> reply == Message("Command not Found.")
    ensures |args| < 3 || args[0] !in book.data ==> unchanged(Named(book, args))
    ensures |args| >= 3 && args[0] in book.data ==>
              var record := book.data[args[0]];
              var (o, n) := (args[1], args[2]);
              record.birthday == old(record.birthday) &&
              if !(IsPhoneNumber(o) && Phone(o) in old(record.phones)) then
                reply == Message("Give me name and phone please.") && record.phones == old(record.phones)
              else
                reply == (if IsPhoneNumber(n) then Contact(record) else Message("Give me name and phone please.")) &&
                record.phones == Sweep(old(record.phones), Phone(o), 0) + (if IsPhoneNumber(n) then [Phone(n)] else [])
  {
    if |args| == 0 {
      return Message(InputError(IndexError));
    }
    var found := book.Find(args[0]);
    if found.Err? {
      return Message(InputError(found.error));
    }
    var record := found.value;
    if |args| < 3 {
      return Message(InputError(IndexError));
    }
    var status := record.EditPhone(args[1], args[2]);
    if status.Raised? {
      return Message(InputError(status.error));
    }
    return Contact(record);
  }

  /** show_phone: the record of a known contact. */
  function ShowPhone(book: AddressBook, args: seq<string>): (reply: Reply)
    reads book
    requires book.Valid()
    ensures |args| == 0 ==> reply == Message("Command not Found.")
    ensures |args| > 0 && args[0] !in book.data ==> reply == Message("Name not Found.")
    ensures |args| > 0 && args[0] in book.data ==>
              reply.Contact? && reply.record == book.data[args[0]] && reply.record.name == args[0]
  {
    if |args| == 0 then Message(InputError(IndexError))
    else
      var found := book.Find(args[0]);
      if found.Err? then Message(InputError(found.error)) else Contact(found.value)
  }

  /** add_birthday: sets the birthday of a known contact. */
  method AddBirthday(book: AddressBook, args: seq<string>) returns (reply: Reply)
    requires book.Valid()
    modifies Named(book, args)
    ensures book.Valid()
    ensures |args| == 0 ==> reply == Message("Command not Found.")
    ensures |args| > 0 && args[0] !in book.data ==> reply == Message("Name not Found.")
    ensures |args| == 1 && args[0] in book.data ==> reply == Message("Command not Found.")
    ensures |args| >= 2 && args[0] in book.data && ParseBirthday(args[1]).Err? ==>
              reply == Message("Give me name and phone please.")
    ensures |args| < 2 || args[0] !in book.data || ParseBirthday(args[1]).Err? ==>
              unchanged(Named(book, args))
    ensures |args| >= 2 && args[0] in book.data && ParseBirthday(args[1]).Ok? ==>
              var record := book.data[args[0]];
              reply == Contact(record) && record.phones == old(record.phones) &&
              record.birthday == Some(ParseBirthday(args[1]).value)
  {
    if |args| == 0 {
      return Message(InputError(IndexError));
    }
    var found := book.Find(args[0]);
    if found.Err? {
      return Message(InputError(found.error));
    }
    var record := found.value;
    if |args| < 2 {
      return Message(InputError(IndexError));
    }
    var status := record.AddBirthday(args[1]);
    if status.Raised? {
      return Message(InputError(status.error));
    }
    return Contact(record);
  }

  /** A session on a new book: add a contact with a phone, give it a
      birthday, then show it; the record shown holds both. */
  method Session(name: string, number: string, text: string)
    returns (shown: Reply, phones: seq<Phone>, birthday: Option<Date>)
    requires IsWord(name) && IsPhoneNumber(number) && ParseBirthday(text).Ok?
    ensures shown.Contact? && shown.record.name == name
    ensures phones == [Phone(number)]
    ensures birthday == Some(ParseBirthday(text).value)
  {
    var book := new AddressBook();
    var added := AddContact(book, [name, number]);
    var dated := AddBirthday(book, [name, text]);
    shown := ShowPhone(book, [name]);
    phones := shown.record.phones;
    birthday := shown.record.birthday;
  }

  /** Changing the only phone of a contact replaces it. */
  method ChangeSession(name: string, oldNumber: string, newNumber: string)
    returns (shown: Reply, phones: seq<Phone>)
    requires IsWord(name) && IsPhoneNumber(oldNumber) && IsPhoneNumber(newNumber)
    ensures shown.Contact? && shown.record.name == name
    ensures phones == [Phone(newNumber)]
  {
    var book := new AddressBook();
    var added := AddContact(book, [name, oldNumber]);
    SweepSingle([], Phone(oldNumber), []);
    shown := ChangeContact(book, [name, oldNumber, newNumber]);
    phones := shown.record.phones;
  }
}
