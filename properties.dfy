/** How the store's operations combine: what a search sees after each change,
    and how add and delete undo each other. */
module ContactProperties {
  import opened Wrappers
  import opened Contacts

  /** A search right after a successful add returns exactly the added record. */
  lemma AddThenSearch(m: Book, name: string, c: Contact)
    requires name !in m
    ensures Search(AddStep(m, name, c).contacts, name) == Found(c)
  {
  }

  /** Adding a present name leaves the stored record as it was. */
  lemma AddExistingKeepsRecord(m: Book, name: string, c: Contact)
    requires name in m
    ensures Search(AddStep(m, name, c).contacts, name) == Found(m[name])
  {
  }

  /** Deleting a just-added name restores the map as it was before the add. */
  lemma AddThenDelete(m: Book, name: string, c: Contact)
    requires name !in m
    ensures DeleteStep(AddStep(m, name, c).contacts, name).contacts == m
  {
  }

  /** After a delete, present or not, a search for the name reports "not found". */
  lemma DeleteThenSearch(m: Book, name: string)
    ensures Search(DeleteStep(m, name).contacts, name) == NotFound
  {
  }

  /** A search after an update of a present name returns the merged record. */
  lemma UpdateThenSearch(m: Book, name: string, phone: Option<string>, email: Option<string>, address: Option<string>)
    requires name in m
    ensures Search(UpdateStep(m, name, phone, email, address).contacts, name) == Found(Merge(m[name], phone, email, address))
  {
  }

  /** An update that supplies no truthy value changes no record, yet on a
      present name it still reports success and still saves. */
  lemma UpdateWithNothingGiven(m: Book, name: string, phone: Option<string>, email: Option<string>, address: Option<string>)
    requires !Truthy(phone) && !Truthy(email) && !Truthy(address)
    ensures UpdateStep(m, name, phone, email, address).contacts == m
    ensures name in m ==> UpdateStep(m, name, phone, email, address).outcome == Updated
    ensures name in m ==> UpdateStep(m, name, phone, email, address).saves
  {
  }

  /** Supplying only a new phone number changes the phone and keeps email and address. */
  lemma UpdatePhoneOnly(m: Book, name: string, phone: string)
    requires name in m && phone != ""
    ensures Search(UpdateStep(m, name, Some(phone), None, None).contacts, name) == Found(m[name].(phone := phone))
  {
  }

  /** Repeating the same update changes nothing more. */
  lemma UpdateIdempotent(m: Book, name: string, phone: Option<string>, email: Option<string>, address: Option<string>)
    ensures var once := UpdateStep(m, name, phone, email, address).contacts;
      UpdateStep(once, name, phone, email, address).contacts == once
  {
  }
}
