/** `AddressBook`: the store of contact records, keyed by normalised name. Python's
    dictionary keeps its keys in insertion order, which the resolver's match list
    and `upcoming` depend on, so the model keeps that order beside the map. */
module Store {
  import opened Outcome
  import opened Text
  import opened Calendar
  import opened Seqs
  import opened Keys
  import opened Birthdays
  import opened Contacts

  /** Deleting a key from the map and from the order keeps the two in step. */
  lemma KeysAfterRemoval<V>(order: seq<string>, data: map<string, V>, k: string)
    requires Distinct(order) && forall x :: x in data <==> x in order
    ensures Distinct(Without(order, k))
    ensures forall x :: x in data - {k} <==> x in Without(order, k)
  {
    WithoutDistinct(order, k);
  }

  /** What the add command reports on success. */
  datatype AddOutcome = Added | Updated

  class AddressBook {
    /** The keys of `data` in insertion order. */
    var order: seq<string>
    var data: map<string, Record>

    ghost predicate Valid()
      reads this
    {
      Distinct(order) && forall k :: k in data <==> k in order
    }

    constructor ()
      ensures Valid() && order == [] && data == map[]
    {
      order := [];
      data := map[];
    }

    /** The records a change under `key` may touch. */
    ghost function RecordsAt(key: string): set<Record>
      reads this
    {
      if key in data then {data[key]} else {}
    }

    /** `self.data[key] = rec`: a new key goes to the end of the order, an existing
        key keeps its place. */
    method Put(key: string, rec: Record)
      requires Valid()
      modifies this`data, this`order
      ensures Valid()
      ensures data == old(data)[key := rec]
      ensures order == if key in old(data) then old(order) else old(order) + [key]
      ensures rec.View() == old(rec.View())
    {
      if key !in data {
        order := order + [key];
      }
      data := data[key := rec];
    }

    /** `add_record`: stores the record under the key of its name and surname. */
    method AddRecord(rec: Record)
      requires Valid()
      modifies this
      ensures Valid()
      ensures data == old(data)[MakeKey(rec.name, rec.surname) := rec]
      ensures MakeKey(rec.name, rec.surname) in old(data) ==> order == old(order)
      ensures MakeKey(rec.name, rec.surname) !in old(data) ==> order == old(order) + [MakeKey(rec.name, rec.surname)]
    {
      Put(MakeKey(rec.name, rec.surname), rec);
    }

    /** `find`: the record whose key the resolver picks, or "Contact not found." */
    function Find(name: string, answer: string): (r: Result<Record>)
      reads this
      requires Valid()
      ensures r.Ok? <==> GetRecordKey(name, order, answer).Some?
      ensures r.Err? ==> r.error == ContactNotFound
      ensures r.Ok? ==> exists k :: k in data && data[k] == r.value && HasAllParts(k, SplitOnce(Strip(name)))
      ensures r.Ok? ==> GetRecordKey(name, order, answer).value in data
      ensures r.Ok? ==> r.value == data[GetRecordKey(name, order, answer).value]
    {
      match GetRecordKey(name, order, answer)
      case None => Err(ContactNotFound)
      case Some(k) =>
        ResolvedKeyMatches(name, order, answer);
        Ok(data[k])
    }

    /** `del self.data[key]` on a stored key: the key leaves the map and the order. */
    method Remove(key: string)
      requires Valid() && key in data
      modifies this
      ensures Valid()
      ensures data == old(data) - {key} && order == Without(old(order), key)
    {
      KeysAfterRemoval(order, data, key);
      data, order := data - {key}, Without(order, key);
    }

    /** `delete`: removes the entry whose key is exactly `make_key_from_input(name)`.
        An absent key raises `KeyError`; a blank name raises in `make_key`. */
    method Delete(name: string) returns (s: Status)
      requires Valid()
      modifies this
      ensures Valid()
      ensures MakeKeyFromInput(name).None? ==>
        s == Fail(MissingName) && data == old(data) && order == old(order)
      ensures MakeKeyFromInput(name).Some? && MakeKeyFromInput(name).value !in old(data) ==>
        s == Fail(ContactNotFound) && data == old(data) && order == old(order)
      ensures MakeKeyFromInput(name).Some? && MakeKeyFromInput(name).value in old(data) ==>
        var k := MakeKeyFromInput(name).value;
        s == Pass && data == old(data) - {k} && order == Without(old(order), k)
    {
      match MakeKeyFromInput(name)
      case None =>
        s := Fail(MissingName);
      case Some(k) =>
        if k !in data {
          s := Fail(ContactNotFound);
        } else {
          Remove(k);
          s := Pass;
        }
    }

    /** The add command's add-or-update (`handle_contact`, command `add`). When the key
        of `name` and `surname` is stored, that record is updated in place, step by
        step: a non-empty phone is appended, then a non-empty surname, e-mail and
        address replace the old ones; a validator that fails stops the steps where
        it stands. Otherwise a new record is built and stored under the key, unless
        a validator rejects its e-mail, name or phone. No other key changes. */
    method AddOrUpdate(name: string, surname: string, phone: string, email: string, address: string)
      returns (r: Result<AddOutcome>)
      requires Valid()
      modifies this, RecordsAt(MakeKey(name, surname))
      ensures Valid()
      // an existing key: the map and the order stay, the record changes in place
      ensures MakeKey(name, surname) in old(data) ==>
        && data == old(data) && order == old(order)
        && (r.Ok? ==> r.value == Updated)
        && MergedInto(data[MakeKey(name, surname)], phone, surname, email, address, AsStatus(r))
      // a new key: stored, last in order, only when every validator accepts
      ensures MakeKey(name, surname) !in old(data) ==>
        && (r.Ok? <==> CreationCheck(name, phone, email) == Pass)
        && (r.Err? ==> CreationCheck(name, phone, email) == Fail(r.error) && data == old(data) && order == old(order))
      ensures MakeKey(name, surname) !in old(data) && r.Ok? ==>
        && r.value == Added
        && order == old(order) + [MakeKey(name, surname)]
        && MakeKey(name, surname) in data && fresh(data[MakeKey(name, surname)])
        && data == old(data)[MakeKey(name, surname) := data[MakeKey(name, surname)]]
        && CreatedFrom(data[MakeKey(name, surname)], name, surname, phone, email, address)
    {
      var key := MakeKey(name, surname);
      if key in data {
        var s := UpdateAt(key, phone, surname, email, address);
        return if s.Pass? then Ok(Updated) else Err(s.error);
      }
      r := CreateAt(key, name, surname, phone, email, address);
    }

    /** The update branch of the add command on the record stored under `key`. */
    method UpdateAt(key: string, phone: string, surname: string, email: string, address: string) returns (s: Status)
      requires Valid() && key in data
      modifies data[key]
      ensures Valid() && data == old(data) && order == old(order)
      ensures MergedInto(data[key], phone, surname, email, address, s)
    {
      s := data[key].Merge(phone, surname, email, address);
    }

    /** The create branch of the add command under a `key` not yet stored. */
    method CreateAt(key: string, name: string, surname: string, phone: string, email: string, address: string)
      returns (r: Result<AddOutcome>)
      requires Valid() && key !in data
      modifies this
      ensures Valid()
      ensures r.Ok? <==> CreationCheck(name, phone, email) == Pass
      ensures r.Err? ==> CreationCheck(name, phone, email) == Fail(r.error) && data == old(data) && order == old(order)
      ensures r.Ok? ==> r.value == Added && order == old(order) + [key]
      ensures r.Ok? ==> key in data && fresh(data[key])
      ensures r.Ok? ==> key in data && data == old(data)[key := data[key]]
      ensures r.Ok? ==> key in data && CreatedFrom(data[key], name, surname, phone, email, address)
    {
      var made := NewRecord(name, surname, phone, email, address);
      if made.Err? {
        return Err(made.error);
      }
      Put(key, made.value);
      return Ok(Added);
    }

    /** `self.data.values()`: the records in insertion order. */
    function Records(): (recs: seq<Record>)
      reads this
      requires Valid()
      ensures |recs| == |order|
      ensures forall i | 0 <= i < |order| :: recs[i] == data[order[i]]
    {
      var keys, d := order, data;
      seq(|keys|, i requires 0 <= i < |keys| => d[keys[i]])
    }

    /** The name and birthday of each record, in insertion order. */
    function People(): (people: seq<Person>)
      reads this, data.Values
      requires Valid()
      ensures |people| == |order|
      ensures forall i | 0 <= i < |order| :: people[i] == (data[order[i]].name, data[order[i]].birthday)
    {
      var keys, d := order, data;
      seq(|keys|, i requires 0 <= i < |keys| reads d.Values => (d[keys[i]].name, d[keys[i]].birthday))
    }

    /** `upcoming`: walks the records in order and enters, under each name, the next
        birthday and the age turned when they fall within `days_ahead` days of
        `today` (which the program reads from the clock). */
    method Upcoming(today: CalendarDate, daysAhead: int) returns (r: Result<map<string, (CalendarDate, int)>>)
      requires Valid()
      ensures r == UpcomingOf(People(), today, daysAhead)
    {
      var result: map<string, (CalendarDate, int)> := map[];
      var i := 0;
      while i < |order|
        invariant 0 <= i <= |order|
        invariant UpcomingOf(People()[..i], today, daysAhead) == Ok(result)
      {
        var rec := data[order[i]];
        ghost var prefix := People()[..i + 1];
        assert prefix[..i] == People()[..i] && prefix[i] == (rec.name, rec.birthday);
        if rec.birthday.Some? {
          var bd := rec.birthday.value;
          var nextBd := Occurrence(today.year, bd);
          if Before(nextBd, today) {
            if today.year == MaxYear {
              assert Overflows(People()[i], today);
              UpcomingFails(People(), today, daysAhead);
              return Err(DateOutOfRange);
            }
            nextBd := Occurrence(today.year + 1, bd);
          }
          assert NextBirthday(bd, today) == Some(nextBd);
          var delta := DaysBetween(today, nextBd);
          if 0 <= delta <= daysAhead {
            result := result[rec.name := (nextBd, nextBd.year - bd.year)];
          }
        }
        i := i + 1;
      }
      assert People()[..i] == People();
      return Ok(result);
    }

    /** The `search` command: the records that match the query, in insertion order. */
    function Search(q: string): (hits: seq<Record>)
      reads this, data.Values
      requires Valid()
      ensures forall r | r in hits :: r in data.Values && r.Matches(q)
      ensures forall k | k in data && data[k].Matches(q) :: data[k] in hits
      ensures IsSubsequence(hits, Records())
    {
      var recs := Records();
      assert forall r | r in recs :: r in data.Values;
      assert forall k | k in data :: data[k] in recs;
      SearchIn(recs, q)
    }
  }
}
