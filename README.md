# Contact book model

A Dafny model of `contacts_bot.py`, a small in-memory contact directory. It has three layers.

- **Field validation.** A `Name` accepts only letters (`str.isalpha`). A `Phone` accepts exactly ten digits (`str.isdigit` and `len == 10`). Both raise `ValidationException` otherwise. Module `Validation` holds them as `ValidateName` and `ValidatePhone`, which return an `Outcome`. It also holds the error datatype `ValidationError`, with one variant for each place the source raises.
- **Record.** A record holds a name and an ordered list of phones. `Records.Record` is a class with a `const name` and a `phones: seq<string>` field. Its methods append, edit the first match in place, find the first match, and delete every match. Module `PhoneList` holds the pure functions on sequences that specify those methods: `IndexOf`, `EditFirst`, `Without` and `Join`. It also holds the lemmas about them: round trip, order, idempotence and what is left unchanged. `Records.Display` is the `__str__` format.
- **AddressBook.** A dictionary from name to record. `AddressBooks.AddressBook` is a class with a `data: map<string, Record>` field. It has `AddRecord` (insert or overwrite), `Find` (`None` when the name is absent) and `Delete` (no-op when the name is absent). `Valid()` says every record is filed under its own name, and both updates preserve it.

Exceptions become return values. `Outcome` (`Pass | Fail(error)`) replaces the raise of a method returning `None`. `Result` (`Ok(value) | Err(error)`) replaces the raise of a constructor. The usage scenario at the bottom of the file is `Scenario.Demo`. Its postconditions are the lines the scenario prints.

Two behaviours of the code that are easy to misread:
- `str.isalpha()` is false on the empty string, so an empty name is rejected.
- `edit_phone` writes the new value without validating it (`contacts_bot.py:43`). So the phone list is not kept to valid ten-digit strings. `PhoneList.EditDoesNotRevalidate` exhibits this.

## Model

| member | source | states |
|---|---|---|
| `Validation.ValidateName` | contacts_bot.py:14-21 | Passes exactly when the string is non-empty and every character is a letter. Otherwise it fails with `InvalidName`. |
| `Validation.ValidatePhone` | contacts_bot.py:23-30 | Passes exactly when the string has length 10 and every character is a decimal digit. Otherwise it fails with `InvalidPhone`. |
| `Records.Record.Create` | contacts_bot.py:33-35 | Fails with `InvalidName` exactly when the name is empty or holds a non-letter. On success it returns a fresh record whose name equals the input and whose phone list is empty. |
| `Records.Record.AddPhone` | contacts_bot.py:37-38 | Succeeds exactly when the number is ten digits. It then appends exactly that number at the end, earlier entries unchanged, and the number becomes findable. An invalid number fails with `InvalidPhone` and leaves the list unchanged. |
| `PhoneList.IndexOf` | contacts_bot.py:47-51 | Returns `None` exactly when no entry equals x. Otherwise it returns an index holding x with no earlier entry equal to x, i.e. the first match. |
| `PhoneList.IndexOfAppend` | contacts_bot.py:37-51 | After appending p, the first match of p is the old first match if p was present, else the new last position. So `find_phone` after `add_phone` finds p. |
| `Records.Record.FindPhone` | contacts_bot.py:47-51 | The front-to-back scan returns `None` exactly when no entry equals the phone. Otherwise it returns the first matching position, whose entry equals the phone. This agrees with `IndexOf`. |
| `PhoneList.EditFirst` | contacts_bot.py:40-45 | Fails with `PhoneNotFound(old)` exactly when no entry equals old. Otherwise the result is the list with only the first entry equal to old replaced by new. |
| `PhoneList.EditFirstKeepsOthers` | contacts_bot.py:40-45 | An edit keeps the length. Position j holds new if j is the first match of old, and its previous entry otherwise, later duplicates of old included. |
| `PhoneList.EditDoesNotRevalidate` | contacts_bot.py:43 | There is a list of valid phones whose successful edit holds an entry that fails phone validation. |
| `Records.Record.EditPhone` | contacts_bot.py:40-45 | Succeeds exactly when old is in the list. On success the new list is `EditFirst` of the old one. Otherwise it fails with `PhoneNotFound(old)` and leaves the list unchanged. |
| `PhoneList.Without` | contacts_bot.py:53-54 | The filtered list contains no entry equal to p. Every other value keeps its multiplicity. |
| `PhoneList.WithoutConcat` | contacts_bot.py:53-54 | Filtering distributes over concatenation, so the kept entries stay in their original relative order. |
| `PhoneList.WithoutAbsent` | contacts_bot.py:53-54 | Deleting a phone that is not in the list leaves the list unchanged. |
| `PhoneList.WithoutIdempotent` | contacts_bot.py:53-54 | Deleting the same phone twice gives the same list as deleting it once. |
| `Records.Record.DeletePhone` | contacts_bot.py:53-54 | Never fails. The new list is `Without(old list, phone)`, and no entry equals the phone afterwards. |
| `Records.Record.ToString` | contacts_bot.py:56-57 | The text is `Display(name, phones)`: it starts with `Contact name: `, the name and `, phones: `, and then the phones joined by `"; "` in list order. With no phones nothing follows the prefix. |
| `PhoneList.JoinAppend` | contacts_bot.py:57 | Joining one more part appends the separator and the part, or gives just the part when the list was empty. |
| `Records.DisplayAppend` | contacts_bot.py:56-57 | Adding a phone extends the display line by `"; "` and the phone, or by the phone alone if it is the first. |
| `AddressBooks.AddressBook.constructor` | contacts_bot.py:59-60 | A new book is empty, and so every record is filed under its own name. |
| `AddressBooks.AddressBook.Find` | contacts_bot.py:65-66 | Returns `None` exactly when the name is absent, else the record filed under it. In a valid book that record carries the name. |
| `AddressBooks.AddressBook.AddRecord` | contacts_bot.py:62-63 | Files the record under its name, overwriting any earlier one, so `Find(name)` returns it. Every other name finds what it found before. The filing invariant is preserved. |
| `AddressBooks.AddressBook.Delete` | contacts_bot.py:68-70 | Removes only the given name, so `Find(name)` returns `None` and every other name finds what it found before. It does nothing if the name is absent. The filing invariant is preserved. |
| `Scenario.PrintedLines` | contacts_bot.py:90-94 | The display form of John after the edit, with phones `1112223333` and `5555555555`, is `Contact name: John, phones: 1112223333; 5555555555`. |
| `Scenario.BuildBook` | contacts_bot.py:73-83 | Creating John with two phones and Jane with one and filing both gives a valid book holding exactly those two names, with John's phones `1234567890` and `5555555555` in order. |
| `Scenario.Demo` | contacts_bot.py:73-96 | The scenario prints the expected line after the edit and finds `5555555555`. After deleting Jane, `Find("Jane")` is `None` and `Find("John")` still returns John's record, holding the edited phones `1112223333` and `5555555555`. |

## Left out

- Letters and digits are the ASCII ranges `a`-`z`, `A`-`Z` and `0`-`9`. Python's `str.isalpha` and `str.isdigit` also accept other Unicode letters and digits, such as superscript digits.
- Phone objects are identified with their string values. `find_phone` returns the `Phone` object itself, and the model returns the position of that entry, which determines the same object. Aliasing through the returned object is not modelled, since no caller mutates through it.
- The name is a `const`. No operation reassigns it. A caller that writes `record.name.value` directly, which Python allows, is not modelled.
- The exception message texts are kept in `Validation.Message` but not otherwise used. Only the error variant is part of the contracts.
- The rest of the `UserDict` interface that `AddressBook` inherits is not modelled. Neither is the insertion-order iteration that the scenario uses to print every record (`contacts_bot.py:85-86`).
- The scenario's `print` calls are not modelled. The printed lines are returned as results instead.
