/** Errors, result wrappers and the two field validators of the contact book:
    a Name accepts letters only, a Phone exactly ten digits. */
module Validation {

  /** The one exception kind of the contact book, one variant per place it is raised. */
  datatype ValidationError =
    | InvalidName                   // a name that is not all letters
    | InvalidPhone                  // a phone that is not exactly ten digits
    | PhoneNotFound(phone: string)  // edit of a phone the record does not hold

  datatype Option<T> = None | Some(value: T)

  /** An operation that yields a value or raises a ValidationError. */
  datatype Result<T> = Ok(value: T) | Err(error: ValidationError)

  /** An operation that returns nothing or raises a ValidationError. */
  datatype Outcome = Pass | Fail(error: ValidationError)

  /** The text the exception carries. */
  function Message(e: ValidationError): string
  {
    match e
    case InvalidName => "Invalid name. Use only letters"
    case InvalidPhone => "Phone number must be 10 digits"
    case PhoneNotFound(p) => "Phone " + p + " not found"
  }

  /** A letter, in the ASCII range (str.isalpha on one character). */
  predicate IsLetter(c: char)
  {
    'a' <= c <= 'z' || 'A' <= c <= 'Z'
  }

  /** A decimal digit (str.isdigit on one character). */
  predicate IsDigit(c: char)
  {
    '0' <= c <= '9'
  }

  /** str.isalpha(): false on the empty string, else every character a letter. */
  predicate IsAlpha(s: string)
  {
    s != [] && forall c :: c in s ==> IsLetter(c)
  }

  /** str.isdigit(): false on the empty string, else every character a digit. */
  predicate IsDigitString(s: string)
  {
    s != [] && forall c :: c in s ==> IsDigit(c)
  }

  const PhoneLength: nat := 10

  /** Name.validate_name: passes exactly on a non-empty string of letters. */
  function ValidateName(value: string): (r: Outcome)
    ensures r.Pass? <==> |value| > 0 && forall i :: 0 <= i < |value| ==> IsLetter(value[i])
    ensures r.Fail? ==> r.error == InvalidName
  {
    if !IsAlpha(value) then Fail(InvalidName) else Pass
  }

  /** Phone.validate_phone: passes exactly on a string of ten digits. */
  function ValidatePhone(value: string): (r: Outcome)
    ensures r.Pass? <==> |value| == 10 && forall i :: 0 <= i < |value| ==> IsDigit(value[i])
    ensures r.Fail? ==> r.error == InvalidPhone
  {
    if !IsDigitString(value) || |value| != PhoneLength then Fail(InvalidPhone) else Pass
  }
}
