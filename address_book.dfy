/** The address book: a dictionary from contact name to record. */
module AddressBooks {
  import opened Validation
  import opened Records

  class AddressBook {
    var data: map<string, Record>

    /** Every record is filed under its own name. */
    ghost predicate Valid()
      reads this
    {
      forall k :: k in data ==> data[k].name == k
    }

    constructor ()
      ensures data == map[] && Valid()
    {
      data := map[];
    }

    /** find: the record filed under name, or None when there is none. */
    function Find(name: string): (r: Option<Record>)
      reads this
      ensures r.Some? <==> name in data
      ensures r.Some? ==> r.value == data[name]
      ensures Valid() && r.Some? ==> r.value.name == name
    {
      if name in data then Some(data[name]) else None
    }

    /** add_record: files the record under its name, replacing any record already there;
        other names keep their records. */
    method AddRecord(record: Record)
      modifies this
      ensures data == old(data)[record.name := record]
      ensures Find(record.name) == Some(record)
      ensures forall k :: k != record.name ==> Find(k) == old(Find(k))
      ensures old(Valid()) ==> Valid()
    {
      data := data[record.name := record];
    }

    /** delete: removes the entry for name if there is one, and does nothing otherwise. */
    method Delete(name: string)
      modifies this
      ensures data == old(data) - {name}
      ensures Find(name) == None
      ensures forall k :: k != name ==> Find(k) == old(Find(k))
      ensures name !in old(data) ==> data == old(data)
      ensures old(Valid()) ==> Valid()
    {
      if name in data {
        data := data - {name};
      }
    }
  }
}
