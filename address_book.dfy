/** The address book object: a contact map updated in place, and the backing
    JSON file, which every successful change overwrites with the whole map.
    Reading and writing the file are not modelled as I/O: what a load reads
    is a parameter, and a save replaces the ghost snapshot `saved`. */
module AddressBookManager {
  import opened Wrappers
  import opened Contacts

  /** The file name used when none is given. */
  const DefaultFile := "address_book.json"

  /** The map a load produces from the file's decoded contents: a missing
      file or one that is not valid JSON (None) silently gives the empty map. */
  function LoadContacts(file: Option<Book>): (m: Book)
    ensures file.None? ==> m == map[]
    ensures file.Some? ==> m == file.value
  {
    match file
    case None => map[]
    case Some(m) => m
  }

  class AddressBook {
    const filename: string
    var contacts: Book
    /** The backing file: Some(the map last written), or None while it is
        missing or not valid JSON and has not been written since. */
    ghost var saved: Option<Book>

    /** Reloading the backing file gives back the in-memory map. */
    ghost predicate Valid()
      reads this
    {
      LoadContacts(saved) == contacts
    }

    /** Opens the book on `filename`, whose current contents decode to `file`. */
    constructor (filename: string, file: Option<Book>)
      ensures Valid()
      ensures this.filename == filename && saved == file
      ensures file.None? ==> contacts == map[]
      ensures file.Some? ==> contacts == file.value
    {
      this.filename := filename;
      contacts := LoadContacts(file);
      saved := file;
    }

    /** Overwrites the backing file with the whole map. */
    method SaveContacts()
      modifies this
      ensures contacts == old(contacts)
      ensures saved == Some(contacts)
    {
      saved := Some(contacts);
    }

    method AddContact(name: string, phone: string, email: string, address: string) returns (o: Outcome)
      requires Valid()
      modifies this
      ensures Valid()
      ensures var s := AddStep(old(contacts), name, Contact(phone, email, address));
        contacts == s.contacts && o == s.outcome && saved == (if s.saves then Some(contacts) else old(saved))
    {
      if name in contacts {
        o := AlreadyExists;
      } else {
        contacts := contacts[name := Contact(phone, email, address)];
        SaveContacts();
        o := Added;
      }
    }

    /** Read-only exact-name lookup. */
    function SearchContact(name: string): (o: Outcome)
      reads this
      ensures o.Found? <==> name in contacts
      ensures o.Found? ==> o.contact == contacts[name]
      ensures !o.Found? ==> o == NotFound
    {
      Search(contacts, name)
    }

    /** Read-only listing: walks the entries of the map one name at a time. */
    method ListContacts() returns (o: Outcome)
      ensures Lists(o, contacts)
    {
      if contacts == map[] {
        return NoContacts;
      }
      var pending := contacts.Keys;
      var entries: seq<(string, Contact)> := [];
      while pending != {}
        invariant pending <= contacts.Keys
        invariant forall i :: 0 <= i < |entries| ==>
          entries[i].0 in contacts && contacts[entries[i].0] == entries[i].1 && entries[i].0 !in pending
        invariant forall k :: k in contacts && k !in pending ==> exists i :: 0 <= i < |entries| && entries[i].0 == k
        invariant forall i, j :: 0 <= i < j < |entries| ==> entries[i].0 != entries[j].0
        decreases pending
      {
        var name :| name in pending;
        ghost var before := entries;
        entries := entries + [(name, contacts[name])];
        pending := pending - {name};
        forall k | k in contacts && k !in pending ensures exists i :: 0 <= i < |entries| && entries[i].0 == k {
          if k == name {
            assert entries[|before|].0 == k;
          } else {
            var i :| 0 <= i < |before| && before[i].0 == k;
            assert entries[i].0 == k;
          }
        }
      }
      o := Listing(entries);
    }

    /** Partial update, one field at a time on the stored record. */
    method UpdateContact(name: string, phone: Option<string>, email: Option<string>, address: Option<string>)
      returns (o: Outcome)
      requires Valid()
      modifies this
      ensures Valid()
      ensures var s := UpdateStep(old(contacts), name, phone, email, address);
        contacts == s.contacts && o == s.outcome && saved == (if s.saves then Some(contacts) else old(saved))
    {
      if name in contacts {
        if Truthy(phone) {
          contacts := contacts[name := contacts[name].(phone := phone.value)];
        }
        if Truthy(email) {
          contacts := contacts[name := contacts[name].(email := email.value)];
        }
        if Truthy(address) {
          contacts := contacts[name := contacts[name].(address := address.value)];
        }
        SaveContacts();
        o := Updated;
      } else {
        o := NotFound;
      }
    }

    method DeleteContact(name: string) returns (o: Outcome)
      requires Valid()
      modifies this
      ensures Valid()
      ensures var s := DeleteStep(old(contacts), name);
        contacts == s.contacts && o == s.outcome && saved == (if s.saves then Some(contacts) else old(saved))
    {
      if name in contacts {
        contacts := contacts - {name};
        SaveContacts();
        o := Deleted;
      } else {
        o := NotFound;
      }
    }
  }

  /** Opening a second book on the same file, after any sequence of
      operations, reproduces the first book's map: `file` is what that file
      decodes to now. */
  method Reopen(book: AddressBook, file: Option<Book>) returns (again: AddressBook)
    requires book.Valid() && file == book.saved
    ensures again.contacts == book.contacts && again.filename == book.filename
  {
    again := new AddressBook(book.filename, file);
  }

  /** Alice is added, her e-mail changed, then she is deleted, starting
      from a missing file. */
  method AliceScenario() returns (added: Outcome, afterAdd: Outcome, updated: Outcome, afterUpdate: Outcome,
                                  deleted: Outcome, afterDelete: Outcome, listing: Outcome)
    ensures added == Added && afterAdd == Found(Contact("555-1111", "a@x.com", "1 Main St"))
    ensures updated == Updated && afterUpdate == Found(Contact("555-1111", "alice@x.com", "1 Main St"))
    ensures deleted == Deleted && afterDelete == NotFound
    ensures listing == NoContacts
  {
    var book := new AddressBook(DefaultFile, None);
    added := book.AddContact("Alice", "555-1111", "a@x.com", "1 Main St");
    afterAdd := book.SearchContact("Alice");
    updated := book.UpdateContact("Alice", None, Some("alice@x.com"), None);
    afterUpdate := book.SearchContact("Alice");
    deleted := book.DeleteContact("Alice");
    afterDelete := book.SearchContact("Alice");
    listing := book.ListContacts();
  }
}
