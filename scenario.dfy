/** The usage scenario at the end of the contact book module, with the printed lines as results. */
module Scenario {
  import opened Validation
  import opened PhoneList
  import opened Records
  import opened AddressBooks

  /** The line the scenario prints for John after the edit, computed from the display form. */
  lemma PrintedLines()
    ensures Display("John", ["1112223333", "5555555555"]) == "Contact name: John, phones: 1112223333; 5555555555"
  {
  }

  /** Builds John (two phones) and Jane (one phone) and files both in a new book. */
  method BuildBook() returns (book: AddressBook, johnRecord: Record)
    ensures fresh(book) && fresh(johnRecord)
    ensures book.Valid() && book.data.Keys == {"John", "Jane"}
    ensures book.data["John"] == johnRecord && johnRecord.name == "John"
    ensures johnRecord.phones == ["1234567890", "5555555555"]
  {
    book := new AddressBook();

    assert ValidateName("John").Pass?;
    var created := Record.Create("John");
    assert created.Ok?;
    johnRecord := created.value;
    assert ValidatePhone("1234567890").Pass? && ValidatePhone("5555555555").Pass?;
    var added := johnRecord.AddPhone("1234567890");
    added := johnRecord.AddPhone("5555555555");
    assert johnRecord.phones == ["1234567890", "5555555555"];
    book.AddRecord(johnRecord);

    assert ValidateName("Jane").Pass?;
    created := Record.Create("Jane");
    assert created.Ok?;
    var janeRecord := created.value;
    added := janeRecord.AddPhone("9876543210");
    book.AddRecord(janeRecord);
  }

  /** Builds the book, edits John's first phone, looks up his second phone and deletes Jane.
      Returns John's display line after the edit, the "name: phone" line of the lookup, and
      what the book then finds under each name. */
  method Demo() returns (johnLine: string, foundLine: string, jane: Option<Record>, john: Option<Record>)
    ensures johnLine == "Contact name: John, phones: 1112223333; 5555555555"
    ensures foundLine == "John: 5555555555"
    ensures jane == None
    ensures john.Some? && john.value.name == "John"
    ensures john.value.phones == ["1112223333", "5555555555"]
  {
    var book, johnRecord := BuildBook();

    var found := book.Find("John");
    assert found == Some(johnRecord);
    var edited := found.value.EditPhone("1234567890", "1112223333");
    assert EditFirst(["1234567890", "5555555555"], "1234567890", "1112223333").value == ["1112223333", "5555555555"];
    assert johnRecord.phones == ["1112223333", "5555555555"];
    johnLine := johnRecord.ToString();
    PrintedLines();

    var at := johnRecord.FindPhone("5555555555");
    assert at == Some(1);
    foundLine := johnRecord.name + ": " + johnRecord.phones[at.value];

    book.Delete("Jane");
    jane := book.Find("Jane");
    john := book.Find("John");
  }
}
