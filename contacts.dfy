/** The record store of the address book as values: a map from a contact's
    name to its three free-text fields, and each operation of the store as a
    pure step from the old map to the new one. */
module Contacts {
  import opened Wrappers

  /** One stored record: the JSON object {"phone", "email", "address"}. */
  datatype Contact = Contact(phone: string, email: string, address: string)

  /** The whole store, keyed by the exact (case-sensitive) name. */
  type Book = map<string, Contact>

  /** What an operation reports to its caller, in place of the printed message. */
  datatype Outcome =
    | Added
    | AlreadyExists
    | Found(contact: Contact)
    | NotFound
    | Updated
    | Deleted
    | NoContacts
    | Listing(entries: seq<(string, Contact)>)

  /** The effect of one operation: the new map, the outcome, and whether the
      whole map is written back to the backing file afterwards. */
  datatype Step = Step(contacts: Book, outcome: Outcome, saves: bool)

  /** `after` agrees with `before` on every name other than `name`. */
  ghost predicate OthersUnchanged(before: Book, after: Book, name: string)
  {
    forall k :: k != name ==> (k in before <==> k in after) && (k in before ==> before[k] == after[k])
  }

  /** Python truthiness of an optional string argument: neither None nor "". */
  predicate Truthy(v: Option<string>)
  {
    v.Some? && v.value != ""
  }

  /** The value a field ends up with: the new one if it is truthy, else the current one. */
  function Pick(v: Option<string>, current: string): (s: string)
  {
    if Truthy(v) then v.value else current
  }

  /** The record after a partial update: a field is replaced exactly when
      its new value is truthy; a missing or empty value keeps the field. */
  function Merge(c: Contact, phone: Option<string>, email: Option<string>, address: Option<string>): (r: Contact)
    ensures Truthy(phone) ==> r.phone == phone.value
    ensures !Truthy(phone) ==> r.phone == c.phone
    ensures Truthy(email) ==> r.email == email.value
    ensures !Truthy(email) ==> r.email == c.email
    ensures Truthy(address) ==> r.address == address.value
    ensures !Truthy(address) ==> r.address == c.address
  {
    Contact(Pick(phone, c.phone), Pick(email, c.email), Pick(address, c.address))
  }

  /** Exact-name lookup. */
  function Search(m: Book, name: string): (o: Outcome)
    ensures o.Found? <==> name in m
    ensures o.Found? ==> o.contact == m[name]
    ensures !o.Found? ==> o == NotFound
  {
    if name in m then Found(m[name]) else NotFound
  }

  /** Adding: a present name is rejected without change or save (never
      overwritten); an absent one gets exactly the given record, every other
      entry is kept, and the map is saved. */
  function AddStep(m: Book, name: string, c: Contact): (r: Step)
    ensures r.saves <==> name !in m
    ensures name in m ==> r.contacts == m && r.outcome == AlreadyExists
    ensures name !in m ==> r.outcome == Added
    ensures name !in m ==> r.contacts.Keys == m.Keys + {name} && r.contacts[name] == c
    ensures OthersUnchanged(m, r.contacts, name)
  {
    if name in m then Step(m, AlreadyExists, false)
    else Step(m[name := c], Added, true)
  }

  /** Updating: an absent name is rejected without change or save; a present
      one keeps its key, gets the merged record, every other entry is kept, and
      the map is saved even when nothing was replaced. */
  function UpdateStep(m: Book, name: string, phone: Option<string>, email: Option<string>, address: Option<string>): (r: Step)
    ensures r.saves <==> name in m
    ensures name !in m ==> r.contacts == m && r.outcome == NotFound
    ensures name in m ==> r.outcome == Updated
    ensures name in m ==> r.contacts.Keys == m.Keys && r.contacts[name] == Merge(m[name], phone, email, address)
    ensures OthersUnchanged(m, r.contacts, name)
  {
    if name in m then Step(m[name := Merge(m[name], phone, email, address)], Updated, true)
    else Step(m, NotFound, false)
  }

  /** Deleting: a present name is removed and nothing else, then the map is
      saved; an absent one is rejected without change or save. */
  function DeleteStep(m: Book, name: string): (r: Step)
    ensures r.saves <==> name in m
    ensures name !in m ==> r.contacts == m && r.outcome == NotFound
    ensures name in m ==> r.outcome == Deleted && r.contacts.Keys == m.Keys - {name}
    ensures OthersUnchanged(m, r.contacts, name)
  {
    if name in m then Step(m - {name}, Deleted, true)
    else Step(m, NotFound, false)
  }

  /** `entries` lists every (name, record) pair of `m` exactly once, in some order. */
  ghost predicate IsListingOf(entries: seq<(string, Contact)>, m: Book)
  {
    && (forall i :: 0 <= i < |entries| ==> entries[i].0 in m && m[entries[i].0] == entries[i].1)
    && (forall k :: k in m ==> exists i :: 0 <= i < |entries| && entries[i].0 == k)
    && (forall i, j :: 0 <= i < j < |entries| ==> entries[i].0 != entries[j].0)
  }

  /** The outcome of listing `m`: "no contacts" for the empty map, otherwise a listing of it. */
  ghost predicate Lists(o: Outcome, m: Book)
  {
    if m == map[] then o == NoContacts else o.Listing? && IsListingOf(o.entries, m)
  }

  /** Dropping the last entry of a listing lists the map without that entry's name. */
  lemma ListingDropLast(entries: seq<(string, Contact)>, m: Book)
    requires IsListingOf(entries, m) && entries != []
    ensures IsListingOf(entries[..|entries| - 1], m - {entries[|entries| - 1].0})
  {
  }

  /** A listing has exactly as many entries as the map has names. */
  lemma {:induction false} ListingSize(entries: seq<(string, Contact)>, m: Book)
    requires IsListingOf(entries, m)
    ensures |entries| == |m|
  {
    if entries == [] {
      assert m.Keys == {};
    } else {
      var n := |entries| - 1;
      ListingDropLast(entries, m);
      ListingSize(entries[..n], m - {entries[n].0});
      assert (m - {entries[n].0}).Keys == m.Keys - {entries[n].0};
    }
  }

  /** Every pair of the map occurs once in a listing, and no other pair occurs. */
  lemma {:induction false} ListingCount(entries: seq<(string, Contact)>, m: Book, p: (string, Contact))
    requires IsListingOf(entries, m)
    ensures multiset(entries)[p] == if p.0 in m && m[p.0] == p.1 then 1 else 0
  {
    if entries != [] {
      var n := |entries| - 1;
      ListingDropLast(entries, m);
      var rest, last, m' := entries[..n], entries[n], m - {entries[n].0};
      ListingCount(rest, m', p);
      assert entries == rest + [last];
      assert multiset(entries)[p] == multiset(rest)[p] + multiset([last])[p];
      if p.0 == last.0 {
        assert p.0 !in m';
      } else {
        assert (p.0 in m') == (p.0 in m) && (p.0 in m ==> m'[p.0] == m[p.0]);
      }
    }
  }

  /** Two listings of the same map differ only in order: the listing is
      determined up to permutation, whatever order the dictionary iterates in. */
  lemma ListingsArePermutations(e1: seq<(string, Contact)>, e2: seq<(string, Contact)>, m: Book)
    requires IsListingOf(e1, m) && IsListingOf(e2, m)
    ensures multiset(e1) == multiset(e2)
  {
    forall p ensures multiset(e1)[p] == multiset(e2)[p] {
      ListingCount(e1, m, p);
      ListingCount(e2, m, p);
    }
  }
}
