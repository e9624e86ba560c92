# Contact book core, modelled in Dafny

This project models the in-memory logic of the console contact book `Team_project.py`:

- the field validators `Name`, `Phone`, `Email` and `Birthday`;
- the mutable contact `Record` and its phone, birthday, note, e-mail and address updates;
- key normalisation (`make_key`, `make_key_from_input`) and the partial-name resolver `get_record_key`;
- the `AddressBook` store: `add_record`, `find`, `delete`, the add-or-update step of the `add` command and the substring search of the `search` command;
- the birthday window `AddressBook.upcoming`;
- the note book (`GeneralNote`, `GeneralNoteBook.add_note`, `search_by_tag`) and the keyword match `simple_match`.

Objects the program changes in place are Dafny classes: `Contacts.Record`, `Store.AddressBook`, `Notes.GeneralNote` and `Notes.NoteBook`. Their methods name what they modify and state the whole new state. The pure parts are functions: the validators, the keys, the resolver, the filters and the match.

Python's dictionary remembers insertion order, and both the resolver's match list and `upcoming` depend on it. So `AddressBook` keeps `order`, the keys in insertion order, beside the map `data`. Its invariant `Valid()` says the two hold the same keys, each once.

Today's date, read from the clock in the program, is a parameter wherever it is used. The resolver's "Select number" prompt is replaced by `answer`, the text the user would type there.

Exceptions become values:

- a validator's `ValueError` is a `Result` or `Status` carrying an `Outcome.Error`;
- `KeyError` from `find` and `delete` is `ContactNotFound`;
- the `TypeError` that `delete` raises on a blank name is `MissingName`. In the program nothing catches it: the `input_error` decorator catches only `KeyError`, `IndexError` and `ValueError`, and `main` only `KeyboardInterrupt` (Team_project.py:415-424, 824). Pressing Enter at the "Contact name:" prompt of `delete` therefore ends the program with a traceback, and the session is not saved. The model's `Delete` returns the error and changes nothing, which is what the method itself does before the exception leaves it;
- the `ValueError` that `upcoming` raises for a date past year 9999 is `DateOutOfRange`.

Modules, one per file:

- `Outcome`: the error, option and result types.
- `Seqs`: subsequences, distinctness and element removal.
- `Text`: Python's `strip`, `split(maxsplit=1)`, `lower`, `in` on strings, `re.findall(r"\w+")`, `isdigit`, `int` and `" ".join`.
- `Calendar`: the proleptic Gregorian calendar and day ordinals.
- `Fields`: the validators.
- `Contacts`: `Record`.
- `Keys`: keys and the resolver.
- `Birthdays`: the birthday window.
- `Store`: `AddressBook`.
- `Notes`: the notes.

Two behaviours of the code that a reader might not expect, both modelled as the code has them:

- `delete` removes only the exact key `make_key_from_input(name)`. It does not use the partial-name resolver that `find` uses.
- When `add` updates an existing contact, it applies its steps one by one. A rejected e-mail therefore leaves an already appended phone and an already replaced surname in place. The store is not left unmodified. Only typed arguments can reach this case, because the interactive prompts re-ask until the phone and e-mail are valid (see "## Left out").

## Model

| member | source | states |
|---|---|---|
| Fields.ParseName | Team_project.py:109-113 | An accepted name is stored stripped. A rejected one gives EmptyName. |
| Fields.NameAccepted | Team_project.py:109-113 | A name is accepted exactly when it has a non-whitespace character. |
| Fields.ParsePhone | Team_project.py:132-136 | An accepted phone is stored unchanged. A rejected one gives BadPhone. |
| Fields.PhoneAccepted | Team_project.py:132-136 | A phone is accepted exactly when it is ten characters, all decimal digits. |
| Fields.ParseEmail | Team_project.py:122-129 | An accepted e-mail is stored stripped. A rejected one gives BadEmail. |
| Fields.EmailAccepted | Team_project.py:122-129 | An e-mail is accepted exactly when its stripped form is empty or fully matches `[^@]+@[^@]+\.[^@]+`. |
| Fields.EmailShapeIsPattern | Team_project.py:123-127 | The character-level e-mail check holds exactly when the string is local@host.tld with three non-empty parts free of '@'. These are the full matches of the regular expression. |
| Fields.ParseBirthday | Team_project.py:139-147 | A birthday is accepted exactly when it is a calendar date not after today. An impossible date gives BadDateFormat. A future date gives FutureBirthday. |
| Fields.AcceptedBirthdayIsPast | Team_project.py:145-147 | An accepted birthday lies zero or more days before today. |
| Calendar.OrdinalOrder | Team_project.py:221-226 | Date comparison agrees with the day-ordinal difference that `(next_bd - today).days` uses. Earlier means a smaller ordinal, and the same date means the same ordinal. |
| Contacts.Record.constructor | Team_project.py:151-158 | A new record holds the validated name and e-mail and the given surname and address. It has no phones, no birthday and no notes. |
| Contacts.Record.AddPhone | Team_project.py:161-162 | A valid phone is appended after the existing ones. An invalid one fails with BadPhone and leaves the list unchanged. |
| Contacts.Record.RemovePhone | Team_project.py:164-165 | The new list is the old one without any copy of the number, with the others kept in order. The number is gone, and every other number stays. |
| Contacts.PythonIndex | Team_project.py:167-168 | A Python index in range denotes a position below the length that is congruent to the index, so a negative index counts from the end. |
| Contacts.Record.EditPhone | Team_project.py:167-168 | The new number is validated first. The index is then checked against Python's range. Only when both pass is the number at that position replaced; otherwise the list is unchanged and the matching error is returned. |
| Contacts.Record.AddBirthday | Team_project.py:171-174 | A set birthday is never overwritten (BirthdayAlreadySet). Otherwise a valid past date is stored, and a rejected one leaves the birthday unset with the validator's error. |
| Contacts.Record.AddContactNote | Team_project.py:176-179 | A blank note fails with EmptyNote and changes nothing. Otherwise the stripped note is appended. |
| Contacts.Record.UpdateEmail | Team_project.py:181-182 | A valid e-mail replaces the old one in stripped form. An invalid one fails with BadEmail and keeps the old one. |
| Contacts.Record.UpdateAddress | Team_project.py:184-185 | The address is replaced by the given text. |
| Contacts.Record.Merge | Team_project.py:540-545 | Update of an existing contact, stated whole by `MergedInto`. A rejected non-empty phone fails with BadPhone and changes nothing. Otherwise a non-empty phone is appended and a non-empty surname replaces the old one. Then a rejected non-empty e-mail fails with BadEmail and stops there. Otherwise a non-empty e-mail replaces the old one in stripped form, and a non-empty address replaces the old one. The name, birthday and notes never change. |
| Contacts.NewRecord | Team_project.py:546-547 | A new contact is created exactly when `CreationCheck` passes, that is, when the e-mail, name and phone are all accepted. On failure the error of the first rejected field is returned, in the order e-mail, name, phone. On success the record is fresh and holds exactly the given fields (`CreatedFrom`): the stripped name and e-mail, the surname and address, the phone if one was given, no birthday and no notes. |
| Contacts.SearchIn | Team_project.py:599-603 | The hits are the records that match the whole query, kept in listing order. A record matches when the query is a case-insensitive substring of its name, surname or a note, or a substring of a phone. |
| Contacts.EmptyQueryListsAll | Team_project.py:599-603 | The empty query lists every record. |
| Keys.MakeKey | Team_project.py:486-487 | A key is stripped and entirely lower case. |
| Keys.MakeKeyFromInput | Team_project.py:490-492 | There is no key exactly when the input is blank. Otherwise the key is normalised. |
| Keys.KeyFromTypedName | Team_project.py:486-492 | Typing a one-word name, a space and a surname yields the same key as `make_key(name, surname)`. |
| Keys.Candidates | Team_project.py:505 | A key is in the match list exactly when it is stored and contains every lowered typed part. The list keeps the book's order and never repeats a key. |
| Keys.Selection | Team_project.py:512-514 | A selection picks a position exactly when the stripped answer is a decimal number from 1 to the match count. The picked position is that number minus one. |
| Keys.GetRecordKey | Team_project.py:495-515 | Blank input gives no key, and so do zero matches. A single match is returned. With several matches, the key at the chosen position is returned exactly when the selection is valid. |
| Keys.ResolvedKeyMatches | Team_project.py:505-514 | A resolved key is a stored key that contains every typed part. |
| Birthdays.Occurrence | Team_project.py:217-220 | This year's celebration falls in the given year, on the birth month and day, or on Feb 28 for a Feb 29 birthday in a common year. |
| Birthdays.OnlyOccurrence | Team_project.py:217-225 | Each year holds exactly one celebration. |
| Birthdays.NextBirthday | Team_project.py:214-225 | The projected date is a celebration not before today. It stays in this year exactly when this year's celebration is not past. There is none exactly when that celebration is past in year 9999. |
| Birthdays.FirstCelebration | Team_project.py:214-225 | The projected date is the earliest celebration on or after today. |
| Birthdays.WithinAYear | Team_project.py:226 | The projected date is 0 to 365 days ahead of today. |
| Birthdays.WindowBoundary | Team_project.py:226-227 | The window `0 <= delta <= days_ahead` is inclusive at its far end. Any window of 365 days or more holds every projectable birthday. |
| Birthdays.AgeTurned | Team_project.py:228 | The age turned is never negative. It is zero exactly when the person was born today. |
| Birthdays.UpcomingFails | Team_project.py:208-230 | The call fails exactly when some birthday cannot be projected past year 9999, and then with DateOutOfRange. |
| Birthdays.UpcomingNames | Team_project.py:211-228 | A name is in the result exactly when some record under that name has a birthday in the window. Records without a birthday never appear. |
| Birthdays.UpcomingLatestWins | Team_project.py:228 | A name's entry is the projected date and age of the last such record in insertion order; later same-named records overwrite earlier ones. |
| Birthdays.UpcomingDatesAhead | Team_project.py:221-228 | Every returned date is on or after today and within `days_ahead` days. |
| Birthdays.UpcomingDatesCelebrated | Team_project.py:214-228 | Every returned date is a celebration of the birthday of some record listed under that name: the birth month and day, or Feb 28 for a Feb 29 birthday in a common year. |
| Store.AddressBook.constructor | Team_project.py:188 | A new book is empty. |
| Store.AddressBook.Put | Team_project.py:191 | `data[key] = rec` changes only that key. A new key goes to the end of the order, and an existing key keeps its place. |
| Store.AddressBook.AddRecord | Team_project.py:189-191 | The record is stored under `make_key(name, surname)`, and no other key changes. |
| Store.AddressBook.Find | Team_project.py:193-197 | A record is found exactly when the resolver picks a key, and it is the record stored under that key. That key contains every typed part. Otherwise the error is ContactNotFound. |
| Store.AddressBook.Remove | Team_project.py:200 | Deleting a stored key removes it from the map and from the order, and the invariant is kept. |
| Store.AddressBook.Delete | Team_project.py:199-200 | Only the exact key of the typed name is removed, and everything else stays. A blank name gives MissingName, and an absent key gives ContactNotFound; both change nothing. |
| Store.AddressBook.AddOrUpdate | Team_project.py:538-549 | An existing key is updated in place. The map and order stay, and the stored record changes as `MergedInto` states, with Updated on success. A new key is stored, last in order, exactly when `CreationCheck` passes; the record is fresh and `CreatedFrom` the given fields, and the outcome is Added. Otherwise the first rejection is reported and nothing changes. No other key changes. |
| Store.AddressBook.UpdateAt | Team_project.py:540-545 | The update branch on a stored key. The map, the order and the invariant are kept, and the record changes as `MergedInto` states. |
| Store.AddressBook.CreateAt | Team_project.py:546-548 | The create branch on an absent key. The record is stored exactly when `CreationCheck` passes, as a fresh record `CreatedFrom` the given fields, last in order, and no other key changes. Otherwise nothing changes and the first rejection is reported. |
| Store.AddressBook.Upcoming | Team_project.py:203-230 | The loop over records in insertion order computes exactly the result of the windowed projection over the book's names and birthdays. The properties of that projection are the Birthdays lemmas above. |
| Store.AddressBook.Search | Team_project.py:599-603 | Every hit is a stored record that matches the query. Every stored record that matches is a hit. The hits keep the book's insertion order. |
| Notes.GeneralNote.constructor | Team_project.py:236-240 | A note holds the stripped text, the given tags and today's date. |
| Notes.GeneralNote.AddTags | Team_project.py:674-676 | The tags are extended in place by the given ones. |
| Notes.MatchWordByWord | Team_project.py:311-315 | `simple_match`, modelled by `Notes.KeywordMatch` and `Notes.SimpleMatch`: every lowered `\w+` word of the query is a substring of the lowered text or of the lowered space-joined tags. The lemma states that a note matches the query exactly when it matches each of the query's words taken alone. |
| Notes.NoWordsMatchAll | Team_project.py:311-315 | A query without word characters matches every note. |
| Notes.MatchBothParts | Team_project.py:311-315 | A query of two parts joined by a space matches exactly when each part matches. The match is the conjunction over the query's words. |
| Notes.TagWordMatches | Team_project.py:311-315 | Searching by one of a note's single-word tags matches it. |
| Text.WordTokensSplit | Team_project.py:312 | A non-word character splits `re.findall(r"\w+")`, so the words of `a + c + b` are the words of `a` followed by those of `b`. |
| Notes.NoteBook.constructor | Team_project.py:248 | A new note book is empty. |
| Notes.NoteBook.AddNote | Team_project.py:250 | Exactly one new note is appended, holding the stripped text, the tags and today's date. The earlier notes are untouched. |
| Notes.NoteBook.SearchByTag | Team_project.py:254 | A note is a hit exactly when it carries the tag. Hits keep the book's order. |
| Notes.NoteBook.KeywordHits | Team_project.py:689-690 | A position is a hit exactly when the note there passes `simple_match`. The positions are strictly increasing. |

## Left out

- Pickle persistence, per-user data paths, registration and login: these are file I/O and interactive prompts.
- The OpenAI calls (spelling suggestions and the semantic fallback of `search-note`): these are foreign network calls.
- The console rendering: record and birthday tables, help text, panels and the `list-notes` table. The `main` loop and the prompting helpers `prompt_validated` and `collect_args` are left out too.
- The `input_error` decorator: it only maps exceptions to messages, and the model returns errors as values.
- The argument handling of the `add` command (Team_project.py:526-537) is not modelled; the model starts from the five strings at line 538. That handling comes in two forms:
  - Typed arguments are split into name, surname, phone and e-mail. The address is the rest joined by single spaces (`address = " ".join(rest[3:])`).
  - With no arguments, the fields are read through `prompt_validated` (Team_project.py:334-346). It re-asks until `Phone` and `Email` accept the input, so an interactive `add` never fails with BadPhone or BadEmail.
  - With no factory, `prompt_validated` returns the input as typed even when it is blank, although `allow_blank=False` is passed for the name. An interactive blank name therefore reaches line 538 as a blank string.
- The command handlers in `handle_contact` and the notes loop are command-layer code outside this model. The exceptions are the `add` and `search` branches, the `add-tag` extension (`Notes.GeneralNote.AddTags`) and the keyword filter of `search-note` (Team_project.py:689-690, `Notes.NoteBook.KeywordHits`). Some of the left-out handlers hold logic of their own:
  - `change` (Team_project.py:562-566) sets `record.phones = []` before calling `add_phone`, so a rejected number leaves the contact with no phones at all;
  - `show-birthday` (Team_project.py:612-620) runs its own filter: an exact match of the lowered name or surname;
  - `birthdays` (Team_project.py:623-624) checks its day-count argument itself.
- `list_notes`: it returns the `notes` field itself.
- Fields.ParseBirthday: it works on the day, month and year that `strptime("%d.%m.%Y")` would read. The lexical rules of `strptime` are not modelled.
- Text.Lower: it lowers only A-Z, U+0400-U+042F (the capitals of the basic Cyrillic block that Russian and Ukrainian use) and U+0490 (Ґ). Python also lowers the other capitals of that block, such as U+0492 (Ғ) and U+04E8 (Ө), and the rest of Unicode; the model leaves them unchanged, although Text.IsWordChar counts them as word characters.
- Fields.ParsePhone: `isdigit` is modelled on ASCII digits, and other Unicode digits are not accepted. The same holds for Keys.Selection.
- Text.IsWordChar: `\w` is modelled as ASCII letters and digits, the underscore and the basic Cyrillic block, and not the rest of Unicode.
- Store.AddressBook.Upcoming: it returns an error value instead of the `ValueError` raised out of `upcoming`. No partial result is observable in either case.
