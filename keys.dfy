/** Key normalisation (`make_key`, `make_key_from_input`) and the partial-name
    resolver `get_record_key`, with the console prompt of its disambiguation step
    replaced by the text the user would type at it. */
module Keys {
  import opened Outcome
  import opened Text
  import opened Seqs

  /** A key as the store holds it: no whitespace at the ends, all lower case. */
  predicate IsNormalKey(k: string) {
    Stripped(k) && Lower(k) == k
  }

  /** `make_key(name, surname)`: `"name surname"`, stripped, then lowered. */
  function MakeKey(name: string, surname: string): (k: string)
    ensures IsNormalKey(k)
  {
    var t := Strip(name + " " + surname);
    LowerKeepsStripped(t);
    LowerIdempotent(t);
    Lower(t)
  }

  /** `make_key_from_input(fullname)`: the first word is the name, the rest the
      surname. A blank input calls `make_key` with no argument, which raises. */
  function MakeKeyFromInput(fullname: string): (r: Option<string>)
    ensures r.None? <==> AllSpace(fullname)
    ensures r.Some? ==> IsNormalKey(r.value)
  {
    var parts := SplitOnce(Strip(fullname));
    assert parts == [] <==> AllSpace(fullname) by {
      var t := Strip(fullname);
      assert t != [] ==> !IsSpace(t[0]);
    }
    if parts == [] then None
    else if |parts| == 1 then Some(MakeKey(parts[0], ""))
    else Some(MakeKey(parts[0], parts[1]))
  }

  lemma {:induction false} SpanStopsAtSpace(n: string, c: char, rest: string)
    requires forall i :: 0 <= i < |n| ==> !IsSpace(n[i])
    requires IsSpace(c)
    ensures SpanNonSpace(n + [c] + rest) == |n|
    decreases |n|
  {
    if n != [] {
      assert (n + [c] + rest)[1..] == n[1..] + [c] + rest;
      SpanStopsAtSpace(n[1..], c, rest);
    }
  }

  lemma {:induction false} SpanWholeWord(n: string)
    requires forall i :: 0 <= i < |n| ==> !IsSpace(n[i])
    ensures SpanNonSpace(n) == |n|
    decreases |n|
  {
    if n != [] {
      SpanWholeWord(n[1..]);
    }
  }

  /** Typing a one-word name, a space and a stripped surname selects the key that
      `make_key` gives the name and surname. */
  lemma KeyFromTypedName(name: string, surname: string)
    requires name != [] && forall i :: 0 <= i < |name| ==> !IsSpace(name[i])
    requires Stripped(surname)
    ensures MakeKeyFromInput(name + " " + surname) == Some(MakeKey(name, surname))
  {
    var x := name + " " + surname;
    assert x[0] == name[0];
    if surname == [] {
      assert x == name + [' '];
      assert TrimLeft(x) == x;
      assert x[..|x| - 1] == name;
      assert TrimRight(x) == TrimRight(name);
      assert Strip(x) == name;
      SpanWholeWord(name);
      assert name[|name|..] == [];
    } else {
      assert x[|x| - 1] == surname[|surname| - 1];
      StripKeepsStripped(x);
      assert TrimLeft(x) == x;
      assert x == name + [' '] + surname;
      SpanStopsAtSpace(name, ' ', surname);
      assert x[..|name|] == name;
      assert x[|name|..] == [' '] + surname;
      assert ([' '] + surname)[1..] == surname;
      assert TrimLeft(x[|name|..]) == surname;
    }
  }

  /** The key contains every typed word, lowered (Team_project.py:505). */
  predicate HasAllParts(key: string, parts: seq<string>) {
    forall p :: p in parts ==> Contains(key, Lower(p))
  }

  /** The match list of Team_project.py:505: the stored keys, in the book's order,
      that contain every typed word. */
  function Candidates(parts: seq<string>, keys: seq<string>): (ms: seq<string>)
    ensures forall k :: k in ms <==> k in keys && HasAllParts(k, parts)
    ensures IsSubsequence(ms, keys)
    ensures Distinct(keys) ==> Distinct(ms)
  {
    if keys == [] then []
    else
      var rest := Candidates(parts, keys[1..]);
      assert keys == [keys[0]] + keys[1..];
      assert Distinct(keys) ==> keys[0] !in keys[1..] && Distinct(keys[1..]);
      if HasAllParts(keys[0], parts) then
        assert ([keys[0]] + rest)[1..] == rest;
        [keys[0]] + rest
      else
        SubsequenceOfTail(rest, keys);
        rest
  }

  /** The answer to "Select number": a decimal number from 1 to `count` picks the
      match at that 1-based position; anything else picks nothing. */
  function Selection(answer: string, count: nat): (r: Option<nat>)
    ensures r.Some? <==> IsDigits(Strip(answer)) && 1 <= DecimalValue(Strip(answer)) <= count
    ensures r.Some? ==> r.value < count && r.value + 1 == DecimalValue(Strip(answer))
  {
    var a := Strip(answer);
    if IsDigits(a) && 1 <= DecimalValue(a) <= count then Some(DecimalValue(a) - 1) else None
  }

  /** `get_record_key(name, book)`, with `keys` the book's keys in insertion order and
      `answer` what the user types when several keys match. */
  function GetRecordKey(name: string, keys: seq<string>, answer: string): (r: Option<string>)
    ensures AllSpace(name) ==> r.None?
    ensures !AllSpace(name) ==>
      var ms := Candidates(SplitOnce(Strip(name)), keys);
      && (|ms| == 0 ==> r.None?)
      && (|ms| == 1 ==> r == Some(ms[0]))
      && (|ms| > 1 ==> (r.Some? <==> Selection(answer, |ms|).Some?))
      && (|ms| > 1 && r.Some? ==> r.value == ms[Selection(answer, |ms|).value])
  {
    var parts := SplitOnce(Strip(name));
    assert parts == [] <==> AllSpace(name) by {
      var t := Strip(name);
      assert t != [] ==> !IsSpace(t[0]);
    }
    if parts == [] then None
    else
      var ms := Candidates(parts, keys);
      if |ms| == 1 then Some(ms[0])
      else if |ms| > 1 then
        match Selection(answer, |ms|)
        case None => None
        case Some(i) => Some(ms[i])
      else None
  }

  /** A resolved key is a stored key that contains every word of the typed name. */
  lemma ResolvedKeyMatches(name: string, keys: seq<string>, answer: string)
    requires GetRecordKey(name, keys, answer).Some?
    ensures GetRecordKey(name, keys, answer).value in keys
    ensures HasAllParts(GetRecordKey(name, keys, answer).value, SplitOnce(Strip(name)))
  {
    var ms := Candidates(SplitOnce(Strip(name)), keys);
    assert GetRecordKey(name, keys, answer).value in ms;
  }
}
