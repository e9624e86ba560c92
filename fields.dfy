/** The field validators `Name`, `Phone`, `Email` and `Birthday`: each accepts or
    rejects a raw value when it is constructed, so that no invalid value is ever
    stored. A validated value is a member of a subset type. */
module Fields {
  import opened Outcome
  import opened Text
  import opened Calendar

  /** A stored first name: `Name` keeps the stripped input, which is never empty. */
  type Name = s: string | s != [] && Stripped(s) witness "_"

  /** Ten decimal digits, the only phone numbers `Phone` accepts. */
  predicate IsPhoneText(s: string) {
    |s| == 10 && IsDigits(s)
  }

  type Phone = s: string | IsPhoneText(s) witness "0000000000"

  /** A stored e-mail address: stripped, and either empty (no address) or of the
      shape `local@host.tld`. */
  predicate IsEmailText(s: string) {
    Stripped(s) && (s == [] || HasEmailShape(s))
  }

  type Email = s: string | IsEmailText(s) witness ""

  predicate NoAt(s: string) {
    forall i :: 0 <= i < |s| ==> s[i] != '@'
  }

  /** The index of the first `@` in `s`, or `|s|` when there is none. */
  function IndexOfAt(s: string): (n: nat)
    ensures n <= |s| && NoAt(s[..n])
    ensures n < |s| ==> s[n] == '@'
  {
    if s == [] || s[0] == '@' then 0
    else
      var n := 1 + IndexOfAt(s[1..]);
      assert s[..n] == [s[0]] + s[1..][..n - 1];
      n
  }

  /** The check the program performs with its regular expression: exactly one `@`,
      not first, and a dot after it with at least one character on each side. */
  predicate HasEmailShape(s: string) {
    var i := IndexOfAt(s);
    0 < i < |s| && NoAt(s[i + 1..]) && exists j | i + 1 < j < |s| - 1 :: s[j] == '.'
  }

  function Assemble(local: string, host: string, tld: string): string {
    local + "@" + host + "." + tld
  }

  predicate IsEmailPart(s: string) {
    s != [] && NoAt(s)
  }

  /** The strings the regular expression `[^@]+@[^@]+\.[^@]+` matches in full. */
  ghost predicate MatchesEmailPattern(s: string) {
    exists local, host, tld ::
      IsEmailPart(local) && IsEmailPart(host) && IsEmailPart(tld) && Assemble(local, host, tld) == s
  }

  lemma AtIndexIsFirst(s: string, k: nat)
    requires k < |s| && NoAt(s[..k]) && s[k] == '@'
    ensures IndexOfAt(s) == k
  {
    var n := IndexOfAt(s);
    assert forall m :: 0 <= m < k ==> s[m] == s[..k][m];
    assert forall m :: 0 <= m < n ==> s[m] == s[..n][m];
  }

  /** The program's e-mail check accepts exactly the full matches of the pattern. */
  lemma EmailShapeIsPattern(s: string)
    ensures HasEmailShape(s) <==> MatchesEmailPattern(s)
  {
    if HasEmailShape(s) {
      var i := IndexOfAt(s);
      var j :| i + 1 < j < |s| - 1 && s[j] == '.';
      var local, host, tld := s[..i], s[i + 1..j], s[j + 1..];
      assert s[i + 1..] == host + "." + tld;
      assert NoAt(host) by { assert forall k :: 0 <= k < |host| ==> host[k] == s[i + 1..][k]; }
      assert NoAt(tld) by { assert forall k :: 0 <= k < |tld| ==> tld[k] == s[i + 1..][j - i + k]; }
      assert Assemble(local, host, tld) == s;
    }
    if MatchesEmailPattern(s) {
      var local, host, tld :| IsEmailPart(local) && IsEmailPart(host) && IsEmailPart(tld) && Assemble(local, host, tld) == s;
      var i := |local|;
      assert s[..i] == local;
      AtIndexIsFirst(s, i);
      assert s[i + 1..] == host + "." + tld;
      var j := i + 1 + |host|;
      assert s[j] == '.';
    }
  }

  /** `Name(raw)`: the stripped input, refused when nothing is left. */
  function ParseName(raw: string): (r: Result<Name>)
    ensures r.Ok? ==> r.value == Strip(raw)
    ensures r.Err? ==> r.error == EmptyName
  {
    var v := Strip(raw);
    if v == [] then Err(EmptyName) else Ok(v)
  }

  /** A name is accepted exactly when it has a character that is not whitespace. */
  lemma NameAccepted(raw: string)
    ensures ParseName(raw).Ok? <==> exists i :: 0 <= i < |raw| && !IsSpace(raw[i])
  {
  }

  /** `Phone(raw)`: stored as given when accepted. */
  function ParsePhone(raw: string): (r: Result<Phone>)
    ensures r.Ok? ==> r.value == raw
    ensures r.Err? ==> r.error == BadPhone
  {
    if !IsDigits(raw) || |raw| != 10 then Err(BadPhone) else Ok(raw)
  }

  /** A phone is accepted exactly when it is ten characters, all decimal digits. */
  lemma PhoneAccepted(raw: string)
    ensures ParsePhone(raw).Ok? <==> |raw| == 10 && forall c :: c in raw ==> '0' <= c <= '9'
  {
    assert forall i :: 0 <= i < |raw| ==> raw[i] in raw;
  }

  /** `Email(raw)`: the stripped input, refused when it is neither empty nor of the
      pattern's shape. */
  function ParseEmail(raw: string): (r: Result<Email>)
    ensures r.Ok? ==> r.value == Strip(raw)
    ensures r.Err? ==> r.error == BadEmail
  {
    var v := Strip(raw);
    if v != [] && !HasEmailShape(v) then Err(BadEmail) else Ok(v)
  }

  /** An e-mail is accepted exactly when its stripped form is empty or a full match
      of `[^@]+@[^@]+\.[^@]+`. */
  lemma EmailAccepted(raw: string)
    ensures ParseEmail(raw).Ok? <==> Strip(raw) == [] || MatchesEmailPattern(Strip(raw))
  {
    EmailShapeIsPattern(Strip(raw));
  }

  /** `Birthday(text)` on the day, month and year the text spells: a calendar date
      that is not after today. */
  function ParseBirthday(day: int, month: int, year: int, today: CalendarDate): (r: Result<CalendarDate>)
    ensures r.Ok? <==> IsValidDate(year, month, day) && !Before(today, Date(year, month, day))
    ensures r.Ok? ==> r.value == Date(year, month, day)
    ensures r.Err? && !IsValidDate(year, month, day) ==> r.error == BadDateFormat
    ensures r.Err? && IsValidDate(year, month, day) ==> r.error == FutureBirthday
  {
    if !IsValidDate(year, month, day) then Err(BadDateFormat)
    else if Before(today, Date(year, month, day)) then Err(FutureBirthday)
    else Ok(Date(year, month, day))
  }

  /** An accepted birthday lies zero or more days before today. */
  lemma AcceptedBirthdayIsPast(day: int, month: int, year: int, today: CalendarDate)
    requires ParseBirthday(day, month, year, today).Ok?
    ensures DaysBetween(ParseBirthday(day, month, year, today).value, today) >= 0
  {
    OrdinalOrder(today, ParseBirthday(day, month, year, today).value);
  }
}
