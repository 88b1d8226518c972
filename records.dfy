/** A contact record: a validated name and an ordered list of phone values. */
module Records {
  import opened Validation
  import opened PhoneList

  /** The display form of a record: its name, then its phones joined by "; " in list order. */
  function Display(name: string, phones: seq<string>): string
  {
    "Contact name: " + name + ", phones: " + Join(phones, "; ")
  }

  /** Adding a phone extends the display form by the phone, after "; " unless it is the first. */
  lemma DisplayAppend(name: string, phones: seq<string>, p: string)
    ensures Display(name, phones + [p]) == Display(name, phones) + (if phones == [] then "" else "; ") + p
  {
    JoinAppend(phones, p, "; ");
  }

  class Record {
    /** The validated name; no operation reassigns it. */
    const name: string
    /** The phone values, in insertion order; not re-validated after an edit. */
    var phones: seq<string>

    /** Builds a record for a name already known to be valid; Create is the checking entry. */
    constructor (name: string)
      requires ValidateName(name).Pass?
      ensures this.name == name && phones == []
    {
      this.name := name;
      phones := [];
    }

    /** Record(name): fails with InvalidName unless the name is a non-empty string of letters;
        otherwise a fresh record with that name and no phones. */
    static method Create(name: string) returns (r: Result<Record>)
      ensures r.Err? <==> !(|name| > 0 && forall i :: 0 <= i < |name| ==> IsLetter(name[i]))
      ensures r.Err? ==> r.error == InvalidName
      ensures r.Ok? ==> fresh(r.value) && r.value.name == name && r.value.phones == []
    {
      match ValidateName(name)
      case Fail(e) =>
        r := Err(e);
      case Pass =>
        var record := new Record(name);
        r := Ok(record);
    }

    /** add_phone: a valid ten-digit number is appended at the end; anything else fails with
        InvalidPhone and leaves the list as it was. */
    method AddPhone(number: string) returns (r: Outcome)
      modifies this
      ensures r.Pass? <==> |number| == 10 && forall i :: 0 <= i < |number| ==> IsDigit(number[i])
      ensures r.Fail? ==> r.error == InvalidPhone && phones == old(phones)
      ensures r.Pass? ==> phones == old(phones) + [number]
      ensures r.Pass? ==> IndexOf(phones, number).Some?
    {
      r := ValidatePhone(number);
      if r.Pass? {
        IndexOfAppend(phones, number);
        phones := phones + [number];
      }
    }

    /** edit_phone: scans the list front to back and overwrites the first entry equal to
        oldPhone with newPhone, without validating newPhone; fails with PhoneNotFound and
        changes nothing when no entry matches. */
    method EditPhone(oldPhone: string, newPhone: string) returns (r: Outcome)
      modifies this
      ensures r.Pass? <==> oldPhone in old(phones)
      ensures r.Fail? ==> r.error == PhoneNotFound(oldPhone) && phones == old(phones)
      ensures r.Pass? ==> phones == EditFirst(old(phones), oldPhone, newPhone).value
    {
      var i := 0;
      while i < |phones|
        invariant 0 <= i <= |phones|
        invariant phones == old(phones)
        invariant forall j :: 0 <= j < i ==> phones[j] != oldPhone
      {
        if phones[i] == oldPhone {
          assert IndexOf(phones, oldPhone) == Some(i);
          phones := phones[i := newPhone];
          return Pass;
        }
        i := i + 1;
      }
      return Fail(PhoneNotFound(oldPhone));
    }

    /** find_phone: the position of the first entry equal to phone, or None when there is none. */
    method FindPhone(phone: string) returns (r: Option<nat>)
      ensures r.None? <==> phone !in phones
      ensures r.Some? ==> r.value < |phones| && phones[r.value] == phone
      ensures r.Some? ==> forall j :: 0 <= j < r.value ==> phones[j] != phone
      ensures r == IndexOf(phones, phone)
    {
      var i := 0;
      while i < |phones|
        invariant 0 <= i <= |phones|
        invariant forall j :: 0 <= j < i ==> phones[j] != phone
      {
        if phones[i] == phone {
          return Some(i);
        }
        i := i + 1;
      }
      return None;
    }

    /** delete_phone: every entry equal to phone is removed, the rest keep their order. */
    method DeletePhone(phone: string)
      modifies this
      ensures phones == Without(old(phones), phone)
      ensures phone !in phones
    {
      phones := Without(phones, phone);
    }

    /** __str__: the name, then the phones joined by "; " in list order. */
    function ToString(): (s: string)
      reads this
      ensures s == Display(name, phones)
      ensures "Contact name: " + name + ", phones: " <= s
      ensures phones == [] ==> s == "Contact name: " + name + ", phones: "
    {
      Display(name, phones)
    }
  }
}
