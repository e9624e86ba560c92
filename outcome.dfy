/** Outcomes of the contact book's operations: the exceptions the program raises
    become explicit error values. */
module Outcome {

  /** The conditions under which an operation of the contact book fails. */
  datatype Error =
    | EmptyName            // Name(...) on a blank string
    | BadEmail             // Email(...) on a string outside the e-mail shape
    | BadPhone             // Phone(...) on anything but ten decimal digits
    | BadDateFormat        // Birthday(...) on text that is not a calendar date
    | FutureBirthday       // Birthday(...) on a date after today
    | BirthdayAlreadySet   // Record.add_birthday on a record that has one
    | EmptyNote            // Record.add_contact_note on a blank note
    | PhoneIndexOutOfRange // Record.edit_phone on an index outside the list
    | ContactNotFound      // a name that resolves to no stored key
    | MissingName          // make_key called with no name at all
    | DateOutOfRange       // a date past the last year the calendar has

  datatype Option<+T> = None | Some(value: T)

  datatype Result<+T> = Ok(value: T) | Err(error: Error)

  /** The outcome of an operation that returns nothing on success. */
  datatype Status = Pass | Fail(error: Error)

  /** A result with its value forgotten. */
  function AsStatus<T>(r: Result<T>): Status {
    if r.Ok? then Pass else Fail(r.error)
  }
}
