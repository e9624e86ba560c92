/** `Record`: one contact's mutable state. Its methods change its fields in place
    and fail, leaving the record as it was, when a validator rejects the input. */
module Contacts {
  import opened Outcome
  import opened Text
  import opened Calendar
  import opened Fields
  import Seqs

  /** Python accepts an index `i` into a list of length `n` when `-n <= i < n`. */
  predicate InPythonRange(i: int, n: int) {
    -n <= i < n
  }

  /** The position a Python index denotes: a negative index counts from the end. */
  function PythonIndex(i: int, n: int): (k: nat)
    requires InPythonRange(i, n)
    ensures k < n
    ensures k % n == i % n
  {
    if i < 0 then i + n else i
  }

  /** The record search of the `search` command, on one record's fields: the whole
      query, not word by word, is a substring of the first name or the surname
      (ignoring case), of a phone number, or of a contact note (ignoring case). */
  predicate MatchesQuery(q: string, name: string, surname: string, phones: seq<string>, notes: seq<string>) {
    || Contains(Lower(name), Lower(q))
    || Contains(Lower(surname), Lower(q))
    || (exists p | p in phones :: Contains(p, q))
    || (exists n | n in notes :: Contains(Lower(n), Lower(q)))
  }

  /** The contents of a `Record` at one moment. */
  datatype RecordView = RecordView(
    name: string, surname: string, address: string, email: string,
    phones: seq<string>, birthday: Option<CalendarDate>, notes: seq<string>)

  class Record {
    var name: Name
    var surname: string
    var address: string
    var email: Email
    var phones: seq<Phone>
    var birthday: Option<CalendarDate>
    var contactNotes: seq<string>

    /** `Record(name, surname, address, email)` once `Name` and `Email` have accepted
        its name and e-mail: no phones, no birthday, no notes. */
    constructor (name: Name, surname: string, address: string, email: Email)
      ensures this.name == name && this.surname == surname
      ensures this.address == address && this.email == email
      ensures phones == [] && birthday == None && contactNotes == []
    {
      this.name := name;
      this.surname := surname;
      this.address := address;
      this.email := email;
      phones := [];
      birthday := None;
      contactNotes := [];
    }

    /** The record's fields as one value. */
    function View(): RecordView
      reads this
    {
      RecordView(name, surname, address, email, phones, birthday, contactNotes)
    }

    predicate Matches(q: string)
      reads this
    {
      MatchesQuery(q, name, surname, phones, contactNotes)
    }

    /** `add_phone`: appends a valid phone number after the existing ones. */
    method AddPhone(raw: string) returns (s: Status)
      modifies this`phones
      ensures ParsePhone(raw).Ok? ==> s == Pass && phones == old(phones) + [ParsePhone(raw).value]
      ensures ParsePhone(raw).Err? ==> s == Fail(BadPhone) && phones == old(phones)
    {
      match ParsePhone(raw)
      case Err(e) =>
        s := Fail(e);
      case Ok(p) =>
        phones := phones + [p];
        s := Pass;
    }

    /** `remove_phone`: drops every copy of the number and keeps the others in order. */
    method RemovePhone(raw: string)
      modifies this`phones
      ensures phones == Seqs.Without(old(phones), raw)
      ensures raw !in phones
      ensures forall p | p in old(phones) && p != raw :: p in phones
    {
      var kept := Seqs.Without(phones, raw);
      assert forall i | 0 <= i < |kept| :: kept[i] in phones;
      phones := kept;
    }

    /** `edit_phone`: the new number is validated first, then stored at the Python
        index `idx`, which may count from the end. */
    method EditPhone(idx: int, raw: string) returns (s: Status)
      modifies this`phones
      ensures ParsePhone(raw).Err? ==> s == Fail(BadPhone) && phones == old(phones)
      ensures ParsePhone(raw).Ok? && !InPythonRange(idx, |old(phones)|) ==>
        s == Fail(PhoneIndexOutOfRange) && phones == old(phones)
      ensures ParsePhone(raw).Ok? && InPythonRange(idx, |old(phones)|) ==>
        s == Pass && phones == old(phones)[PythonIndex(idx, |old(phones)|) := ParsePhone(raw).value]
    {
      match ParsePhone(raw)
      case Err(e) =>
        s := Fail(e);
      case Ok(p) =>
        if !InPythonRange(idx, |phones|) {
          s := Fail(PhoneIndexOutOfRange);
        } else {
          phones := phones[PythonIndex(idx, |phones|) := p];
          s := Pass;
        }
    }

    /** `add_birthday`: a birthday is set at most once, and only to a calendar date
        that is not after today. */
    method AddBirthday(day: int, month: int, year: int, today: CalendarDate) returns (s: Status)
      modifies this`birthday
      ensures old(birthday).Some? ==> s == Fail(BirthdayAlreadySet) && birthday == old(birthday)
      ensures old(birthday).None? && ParseBirthday(day, month, year, today).Ok? ==>
        s == Pass && birthday == Some(Date(year, month, day))
      ensures old(birthday).None? && ParseBirthday(day, month, year, today).Err? ==>
        s == Fail(ParseBirthday(day, month, year, today).error) && birthday == None
    {
      if birthday.Some? {
        s := Fail(BirthdayAlreadySet);
        return;
      }
      match ParseBirthday(day, month, year, today)
      case Err(e) =>
        s := Fail(e);
      case Ok(d) =>
        birthday := Some(d);
        s := Pass;
    }

    /** `add_contact_note`: appends the stripped note; a blank note is refused. */
    method AddContactNote(note: string) returns (s: Status)
      modifies this`contactNotes
      ensures AllSpace(note) ==> s == Fail(EmptyNote) && contactNotes == old(contactNotes)
      ensures !AllSpace(note) ==> s == Pass && contactNotes == old(contactNotes) + [Strip(note)]
    {
      var v := Strip(note);
      if v == [] {
        s := Fail(EmptyNote);
      } else {
        contactNotes := contactNotes + [v];
        s := Pass;
      }
    }

    /** `update_email`: replaces the e-mail with the validated, stripped input. */
    method UpdateEmail(raw: string) returns (s: Status)
      modifies this`email
      ensures ParseEmail(raw).Ok? ==> s == Pass && email == Strip(raw)
      ensures ParseEmail(raw).Err? ==> s == Fail(BadEmail) && email == old(email)
    {
      match ParseEmail(raw)
      case Err(e) =>
        s := Fail(e);
      case Ok(v) =>
        email := v;
        s := Pass;
    }

    /** The update half of the add command: a non-empty phone is appended, then a
        non-empty surname, e-mail and address replace the old ones, in that order.
        A rejected phone or e-mail stops the update where it stands, so a rejected
        e-mail leaves the phone and surname already changed. */
    method Merge(phone: string, surname: string, email: string, address: string) returns (s: Status)
      modifies this`phones, this`surname, this`email, this`address
      ensures MergedInto(this, phone, surname, email, address, s)
    {
      s := MergePhoneSurname(phone, surname);
      if s.Fail? {
        return;
      }
      s := MergeEmailAddress(email, address);
    }

    /** The first two steps of `Merge`: the phone, then the surname. */
    method MergePhoneSurname(phone: string, surname: string) returns (s: Status)
      modifies this`phones, this`surname
      ensures phone != [] && ParsePhone(phone).Err? ==> s == Fail(BadPhone) && View() == old(View())
      ensures !(phone != [] && ParsePhone(phone).Err?) ==> s == Pass && View() == old(View()).(
        phones := old(phones) + (if phone == [] then [] else [phone]),
        surname := if surname == [] then old(this.surname) else surname)
    {
      if phone != [] {
        var p := ParsePhone(phone);
        if p.Err? {
          return Fail(p.error);
        }
        phones := phones + [p.value];
      }
      if surname != [] {
        this.surname := surname;
      }
      s := Pass;
    }

    /** The last two steps of `Merge`: the e-mail, then the address. */
    method MergeEmailAddress(email: string, address: string) returns (s: Status)
      modifies this`email, this`address
      ensures email != [] && ParseEmail(email).Err? ==> s == Fail(BadEmail) && View() == old(View())
      ensures !(email != [] && ParseEmail(email).Err?) ==> s == Pass && View() == old(View()).(
        email := if email == [] then old(this.email) else Strip(email),
        address := if address == [] then old(this.address) else address)
    {
      if email != [] {
        var e := ParseEmail(email);
        if e.Err? {
          return Fail(e.error);
        }
        this.email := e.value;
      }
      if address != [] {
        this.address := address;
      }
      s := Pass;
    }

    /** `update_address`: an address is free text and is stored as given. */
    method UpdateAddress(raw: string)
      modifies this`address
      ensures address == raw
    {
      address := raw;
    }
  }

  /** What the update half of the add command does to `rec`, with `s` its outcome.
      A rejected phone changes nothing. Otherwise a non-empty phone is appended and a
      non-empty surname replaces the old one; then a rejected e-mail stops there,
      and an accepted one (when given) replaces the old e-mail, followed by a
      non-empty address. The name, birthday and notes never change. */
  twostate predicate MergedInto(rec: Record, phone: string, surname: string, email: string, address: string, s: Status)
    reads rec
  {
    var before := old(rec.View());
    if phone != [] && ParsePhone(phone).Err? then
      s == Fail(BadPhone) && rec.View() == before
    else
      var withPhone := before.(
        phones := before.phones + (if phone == [] then [] else [phone]),
        surname := if surname == [] then before.surname else surname);
      if email != [] && ParseEmail(email).Err? then
        s == Fail(BadEmail) && rec.View() == withPhone
      else
        s == Pass && rec.View() == withPhone.(
          email := if email == [] then before.email else Strip(email),
          address := if address == [] then before.address else address)
  }

  /** The outcome of creating a contact with the add command: the first rejected
      field in the order the program validates them. The e-mail comes before the
      name because it is an argument of the constructor call. */
  function CreationCheck(name: string, phone: string, email: string): Status {
    if email != [] && ParseEmail(email).Err? then Fail(BadEmail)
    else if ParseName(name).Err? then Fail(EmptyName)
    else if phone != [] && ParsePhone(phone).Err? then Fail(BadPhone)
    else Pass
  }

  /** `rec` holds exactly the fields the add command gives a new contact. */
  predicate CreatedFrom(rec: Record, name: string, surname: string, phone: string, email: string, address: string)
    reads rec
  {
    rec.View() == RecordView(Strip(name), surname, address, Strip(email), if phone == [] then [] else [phone], None, [])
  }

  /** The create half of the add command (Team_project.py:546-547): a record of the
      name, the surname, the address and the e-mail, where a blank address or
      e-mail is stored as "" without validation, followed by `add_phone` when a
      phone is given. */
  method NewRecord(name: string, surname: string, phone: string, email: string, address: string)
    returns (r: Result<Record>)
    ensures r.Ok? <==> CreationCheck(name, phone, email) == Pass
    ensures r.Err? ==> CreationCheck(name, phone, email) == Fail(r.error)
    ensures r.Ok? ==> fresh(r.value) && CreatedFrom(r.value, name, surname, phone, email, address)
  {
    var validEmail: Email := "";
    if email != [] {
      match ParseEmail(email)
      case Err(e) =>
        return Err(e);
      case Ok(v) =>
        validEmail := v;
    }
    var validName: Name;
    match ParseName(name)
    case Err(e) =>
      return Err(e);
    case Ok(v) =>
      validName := v;
    r := Build(validName, surname, address, validEmail, phone);
  }

  /** `Record(name, surname, address, email)` on validated fields, then `add_phone`
      when a phone is given. */
  method Build(name: Name, surname: string, address: string, email: Email, phone: string)
    returns (r: Result<Record>)
    ensures r.Ok? <==> phone == [] || ParsePhone(phone).Ok?
    ensures r.Err? ==> r.error == BadPhone
    ensures r.Ok? ==> fresh(r.value)
    ensures r.Ok? ==> r.value.View() == RecordView(name, surname, address, email, if phone == [] then [] else [phone], None, [])
  {
    var rec := new Record(name, surname, address, email);
    if phone != [] {
      var s := rec.AddPhone(phone);
      if s.Fail? {
        return Err(s.error);
      }
    }
    return Ok(rec);
  }

  /** The hit list of the `search` command over records in dictionary order: the
      records that match the query, in the order they are listed. */
  function SearchIn(recs: seq<Record>, q: string): (hits: seq<Record>)
    reads recs
    ensures forall r | r in hits :: r in recs && r.Matches(q)
    ensures forall r | r in recs && r.Matches(q) :: r in hits
    ensures Seqs.IsSubsequence(hits, recs)
  {
    if recs == [] then []
    else
      var rest := SearchIn(recs[1..], q);
      assert recs == [recs[0]] + recs[1..];
      if recs[0].Matches(q) then
        assert ([recs[0]] + rest)[1..] == rest;
        [recs[0]] + rest
      else
        Seqs.SubsequenceOfTail(rest, recs);
        rest
  }

  /** The empty query is a substring of everything, so it lists every record. */
  lemma {:induction false} EmptyQueryListsAll(recs: seq<Record>)
    ensures SearchIn(recs, "") == recs
  {
    if recs != [] {
      EmptyQueryListsAll(recs[1..]);
      assert OccursAt(Lower(recs[0].name), Lower(""), 0);
    }
  }
}
