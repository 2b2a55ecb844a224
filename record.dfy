/** One contact: a name, its phones in the order they were added, and an
    optional birthday (class Record, AddrBook.py:58-90). */
module Records {
  import opened Exceptions
  import opened Calendar
  import opened Fields

  /** The index of the first copy of x in s (list.index). */
  function FirstIndex<T(==)>(s: seq<T>, x: T): (k: nat)
    requires x in s
    ensures k < |s| && s[k] == x
    ensures forall i :: 0 <= i < k ==> s[i] != x
  {
    if s[0] == x then 0 else 1 + FirstIndex(s[1..], x)
  }

  /** list.remove(x): drops the first element equal to x. Python raises
      ValueError when there is none; remove_phone only removes a phone it
      has just read from the same list, so that case never arises there and
      the model returns s unchanged for it. */
  function RemoveFirst<T(==)>(s: seq<T>, x: T): (r: seq<T>)
    ensures x !in s ==> r == s
    ensures x in s ==> |r| == |s| - 1
  {
    if x in s then
      var k := FirstIndex(s, x);
      s[..k] + s[k + 1..]
    else s
  }

  /** list.remove takes away one copy of x, and nothing else. */
  lemma RemoveFirstMultiset<T>(s: seq<T>, x: T)
    ensures multiset(RemoveFirst(s, x)) == multiset(s) - multiset{x}
  {
    if x in s {
      var k := FirstIndex(s, x);
      var a, b := s[..k], s[k + 1..];
      assert s == a + [x] + b;
      assert multiset(s) == multiset(a) + multiset{x} + multiset(b);
      assert multiset(RemoveFirst(s, x)) == multiset(a) + multiset(b);
    }
  }

  /** The phones that the loop of remove_phone leaves when it has reached
      index i: `for obj in phones` walks by index over the list it shrinks,
      and each match calls list.remove, which drops the FIRST equal phone. */
  function Sweep(s: seq<Phone>, x: Phone, i: nat): (r: seq<Phone>)
    ensures |r| <= |s|
    decreases |s| - i
  {
    if i >= |s| then s
    else if s[i] == x then Sweep(RemoveFirst(s, x), x, i + 1)
    else Sweep(s, x, i + 1)
  }

  predicate Distinct<T(==)>(s: seq<T>) {
    forall i, j :: 0 <= i < j < |s| ==> s[i] != s[j]
  }

  /** s without any copy of x, the others in their order. */
  function Without<T(==)>(s: seq<T>, x: T): (r: seq<T>)
    ensures |r| <= |s|
  {
    if s == [] then []
    else if s[0] == x then Without(s[1..], x)
    else [s[0]] + Without(s[1..], x)
  }

  /** Dropping x keeps exactly the other elements, keeps them distinct,
      and changes nothing when x is absent. */
  lemma {:induction false} WithoutMembers<T(!new)>(s: seq<T>, x: T)
    ensures forall y :: y in Without(s, x) <==> y in s && y != x
    ensures Distinct(s) ==> Distinct(Without(s, x))
    ensures x !in s ==> Without(s, x) == s
  {
    if s != [] {
      WithoutMembers(s[1..], x);
      assert forall y :: y in s <==> y == s[0] || y in s[1..];
      if s[0] != x {
        assert Distinct(s) ==> s[0] !in s[1..];
        assert Distinct(s) ==> Distinct(s[1..]);
      }
    }
  }

  class Record {
    const name: string
    var phones: seq<Phone>
    var birthday: Option<Date>

    /** Record(name): no phones and no birthday yet. */
    constructor (name: string)
      requires name != []
      ensures this.name == name && phones == [] && birthday == None
    {
      this.name := name;
      phones := [];
      birthday := None;
    }

    /** add_phone: appends a valid number after the others, duplicates
        included; an invalid one raises ValueError and changes nothing. */
    method AddPhone(number: string) returns (status: Status)
      modifies this`phones
      ensures status == if IsPhoneNumber(number) then Done else Raised(ValueError)
      ensures phones == if IsPhoneNumber(number) then old(phones) + [Phone(number)] else old(phones)
    {
      var p := MakePhone(number);
      if p.Err? {
        return Raised(p.error);
      }
      phones := phones + [p.value];
      return Done;
    }

    /** add_birthday: a valid date replaces any earlier one; an invalid one
        raises ValueError and keeps the earlier one. */
    method AddBirthday(text: string) returns (status: Status)
      modifies this`birthday
      ensures status == if ParseBirthday(text).Ok? then Done else Raised(ValueError)
      ensures birthday == if ParseBirthday(text).Ok? then Some(ParseBirthday(text).value) else old(birthday)
    {
      var b := ParseBirthday(text);
      if b.Err? {
        return Raised(b.error);
      }
      birthday := Some(b.value);
      return Done;
    }

    /** remove_phone: an invalid number raises ValueError before anything
        changes; otherwise the loop over the phones runs. */
    method RemovePhone(number: string) returns (status: Status)
      modifies this`phones
      ensures status == if IsPhoneNumber(number) then Done else Raised(ValueError)
      ensures phones == if IsPhoneNumber(number) then Sweep(old(phones), Phone(number), 0) else old(phones)
    {
      var p := MakePhone(number);
      if p.Err? {
        return Raised(p.error);
      }
      var target := p.value;
      var i := 0;
      while i < |phones|
        invariant Sweep(phones, target, i) == Sweep(old(phones), target, 0)
        decreases |phones| - i
      {
        var obj := phones[i];
        i := i + 1;
        if PhoneEquals(obj, target) {
          phones := RemoveFirst(phones, obj);
        }
      }
      return Done;
    }

    /** find_phone: the phone when the number is valid and stored,
        ValueError otherwise. */
    function FindPhone(number: string): (r: Result<Phone>)
      reads this
      ensures r.Ok? <==> IsPhoneNumber(number) && Phone(number) in phones
      ensures r.Ok? ==> r.value.value == number
      ensures r.Err? ==> r.error == ValueError
    {
      match MakePhone(number)
      case Err(e) => Err(e)
      case Ok(p) => if p in phones then Ok(p) else Err(ValueError)
    }

    /** edit_phone: find, then remove, then add. A missing or invalid old
        number raises before any change; an invalid new number raises
        after the old one is already gone. */
    method EditPhone(oldNumber: string, newNumber: string) returns (status: Status)
      modifies this`phones
      ensures !(IsPhoneNumber(oldNumber) && Phone(oldNumber) in old(phones)) ==>
                status == Raised(ValueError) && phones == old(phones)
      ensures IsPhoneNumber(oldNumber) && Phone(oldNumber) in old(phones) ==>
                status == (if IsPhoneNumber(newNumber) then Done else Raised(ValueError)) &&
                phones == Sweep(old(phones), Phone(oldNumber), 0) +
                          (if IsPhoneNumber(newNumber) then [Phone(newNumber)] else [])
    {
      var found := FindPhone(oldNumber);
      if found.Err? {
        return Raised(found.error);
      }
      status := RemovePhone(oldNumber);
      status := AddPhone(newNumber);
    }
  }

  // ---------------------------------------------------------------------
  // Lemmas about the loop of remove_phone

  /** In p + [x] + q with no x in p, list.remove drops that x. */
  lemma RemoveFirstSplit<T>(p: seq<T>, x: T, q: seq<T>)
    requires x !in p
    ensures RemoveFirst(p + [x] + q, x) == p + q
  {
    var s := p + [x] + q;
    assert s[|p|] == x;
    var k := FirstIndex(s, x);
    assert k == |p|;
    assert s[..k] == p && s[k + 1..] == q;
  }

  /** The loop passes over phones other than x without changing anything. */
  lemma {:induction false} SweepSkips(s: seq<Phone>, x: Phone, i: nat, j: nat)
    requires i <= j <= |s|
    requires forall k :: i <= k < j ==> s[k] != x
    ensures Sweep(s, x, i) == Sweep(s, x, j)
    decreases j - i
  {
    if i < j {
      SweepSkips(s, x, i + 1, j);
    }
  }

  lemma SweepDone(s: seq<Phone>, x: Phone, i: nat)
    requires forall k :: i <= k < |s| ==> s[k] != x
    ensures Sweep(s, x, i) == s
  {
    if i < |s| {
      SweepSkips(s, x, i, |s|);
    }
  }

  /** Removing an absent number leaves the phones as they are. */
  lemma SweepAbsent(s: seq<Phone>, x: Phone)
    requires x !in s
    ensures Sweep(s, x, 0) == s
  {
    SweepDone(s, x, 0);
  }

  /** The loop reaches the first copy of x and removes it. */
  lemma SweepFirstHit(p: seq<Phone>, x: Phone, rest: seq<Phone>)
    requires x !in p
    ensures Sweep(p + [x] + rest, x, 0) == Sweep(p + rest, x, |p| + 1)
  {
    var s := p + [x] + rest;
    SweepSkips(s, x, 0, |p|);
    assert s[|p|] == x;
    RemoveFirstSplit(p, x, rest);
  }

  /** Removing a number stored once drops it; the rest keep their order. */
  lemma SweepSingle(p: seq<Phone>, x: Phone, q: seq<Phone>)
    requires x !in p && x !in q
    ensures Sweep(p + [x] + q, x, 0) == p + q
  {
    SweepFirstHit(p, x, q);
    SweepDone(p + q, x, |p| + 1);
  }

  /** Removing a number stored twice in a row leaves one copy: after the
      first copy is removed the second moves into the slot the loop has
      already passed. */
  lemma SweepAdjacentPair(p: seq<Phone>, x: Phone, q: seq<Phone>)
    requires x !in p && x !in q
    ensures Sweep(p + [x, x] + q, x, 0) == p + [x] + q
  {
    assert p + [x, x] + q == p + [x] + ([x] + q);
    SweepFirstHit(p, x, [x] + q);
    var t := p + ([x] + q);
    assert t == p + [x] + q;
    assert forall k :: |p| + 1 <= k < |t| ==> t[k] == q[k - |p| - 1];
    SweepDone(t, x, |p| + 1);
  }

  lemma {:induction false} WithoutAppend<T(!new)>(a: seq<T>, b: seq<T>, x: T)
    ensures Without(a + b, x) == Without(a, x) + Without(b, x)
  {
    if a != [] {
      assert (a + b)[0] == a[0] && (a + b)[1..] == a[1..] + b;
      WithoutAppend(a[1..], b, x);
    } else {
      assert a + b == b;
    }
  }

  lemma WithoutRemoveFirst<T(!new)>(s: seq<T>, x: T)
    ensures Without(RemoveFirst(s, x), x) == Without(s, x)
  {
    if x in s {
      var k := FirstIndex(s, x);
      var a, b := s[..k], s[k + 1..];
      assert s == a + ([x] + b);
      WithoutAppend(a, [x] + b, x);
      WithoutAppend(a, b, x);
      assert ([x] + b)[1..] == b;
    }
  }

  /** Whatever copies of x the loop removes, every other phone stays, in its order. */
  lemma {:induction false} SweepKeepsOthers(s: seq<Phone>, x: Phone, i: nat)
    ensures Without(Sweep(s, x, i), x) == Without(s, x)
    decreases |s| - i
  {
    if i < |s| {
      if s[i] == x {
        SweepKeepsOthers(RemoveFirst(s, x), x, i + 1);
        WithoutRemoveFirst(s, x);
      } else {
        SweepKeepsOthers(s, x, i + 1);
      }
    }
  }

  /** How the loop changes the count of one phone y. */
  lemma {:induction false} SweepCount(s: seq<Phone>, x: Phone, i: nat, y: Phone)
    ensures multiset(Sweep(s, x, i))[y] <= multiset(s)[y]
    ensures y != x ==> multiset(Sweep(s, x, i))[y] == multiset(s)[y]
    ensures y == x && (exists k :: i <= k < |s| && s[k] == x) ==>
              multiset(Sweep(s, x, i))[y] < multiset(s)[y]
    decreases |s| - i
  {
    if i < |s| {
      if s[i] == x {
        SweepCount(RemoveFirst(s, x), x, i + 1, y);
        RemoveFirstMultiset(s, x);
      } else {
        SweepCount(s, x, i + 1, y);
        if exists k :: i <= k < |s| && s[k] == x {
          var k :| i <= k < |s| && s[k] == x;
          assert i + 1 <= k;
        }
      }
    }
  }

  /** The loop only removes copies of x, and removes at least one when x is
      stored from index i on. */
  lemma SweepShrinks(s: seq<Phone>, x: Phone, i: nat)
    ensures multiset(Sweep(s, x, i)) <= multiset(s)
    ensures forall y :: y != x ==> multiset(Sweep(s, x, i))[y] == multiset(s)[y]
    ensures (exists k :: i <= k < |s| && s[k] == x) ==>
              multiset(Sweep(s, x, i))[x] < multiset(s)[x]
  {
    forall y
      ensures multiset(Sweep(s, x, i))[y] <= multiset(s)[y]
      ensures y != x ==> multiset(Sweep(s, x, i))[y] == multiset(s)[y]
    {
      SweepCount(s, x, i, y);
    }
    SweepCount(s, x, i, x);
  }
}
