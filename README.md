# Address book manager — Dafny model

This project models the `AddressBook` class of a single-user address book
(`address_book_manager.py`). The class keeps a map from a contact's name to a
record with three free-text fields: phone, email and address. It loads the
map from a JSON file when it is created. It supports add, search, list,
update and delete. After every successful change it writes the whole map
back to the same file.

- `wrappers.dfy`: module `Wrappers`, the `Option` type. It stands for Python's
  `None`-or-value arguments and for a backing file that is missing or not
  valid JSON.
- `contacts.dfy`: module `Contacts`, the store as values. It holds the `Contact`
  record, the `Outcome` reported in place of each printed message, and one
  pure step function per changing operation (`AddStep`, `UpdateStep`,
  `DeleteStep`). Each step gives the new map, the outcome, and whether the
  file is saved. It also holds exact-name `Search`, the partial-update rule
  `Merge`, and the listing predicate with its lemmas.
- `address_book.dfy`: module `AddressBookManager`, the class `AddressBook`. Its
  `contacts` field is updated in place. A ghost field `saved` stands for the
  backing file. Each changing method is proved against its step function.
  The object invariant `Valid()` says that reloading the file gives back the
  in-memory map.
- `properties.dfy`: module `ContactProperties`, lemmas relating operations,
  for example add then search, add then delete, and update then search.

Python truthiness of an update argument is `Truthy`: the value is neither
`None` nor the empty string. A field is replaced exactly when its new value
is truthy.

## Model

| member | source | states |
|---|---|---|
| `AddressBookManager.LoadContacts` | address_book_manager.py:8-14 | a missing file or one that is not valid JSON (None) gives the empty map; a decoded file gives its map unchanged |
| `AddressBookManager.AddressBook.constructor` | address_book_manager.py:4-14 | a missing file or one that is not valid JSON gives the empty map; a decoded file gives its map unchanged; the file is left as it is and the invariant holds |
| `AddressBookManager.AddressBook.SaveContacts` | address_book_manager.py:16-19 | the backing file afterwards holds exactly the in-memory map, which is not changed |
| `AddressBookManager.AddressBook.AddContact` | address_book_manager.py:21-32 | the map and outcome are those of `AddStep`; the file is rewritten with the new map on success and untouched on rejection; the invariant is kept |
| `AddressBookManager.AddressBook.ListContacts` | address_book_manager.py:45-55 | read-only; "no contacts" on the empty map, otherwise every (name, record) pair of the map exactly once |
| `AddressBookManager.AddressBook.UpdateContact` | address_book_manager.py:57-70 | field-by-field update of the stored record; map and outcome are those of `UpdateStep`; the file is rewritten on a present name and untouched otherwise |
| `AddressBookManager.AddressBook.DeleteContact` | address_book_manager.py:72-79 | the map and outcome are those of `DeleteStep`; the file is rewritten on a present name and untouched otherwise |
| `AddressBookManager.Reopen` | address_book_manager.py:4-19 | a second book opened on the file after any sequence of operations has the same map as the first |
| `AddressBookManager.AliceScenario` | address_book_manager.py:21-79 | from a missing file: add Alice, search finds her record; set her email only, search finds the new email with the old phone and address; delete, search reports not found; list reports no contacts |
| `AddressBookManager.AddressBook.SearchContact` | address_book_manager.py:34-43 | read-only; finds a record iff the exact name is a key of the book's map, and then returns that key's record; otherwise reports not found |
| `Contacts.Search` | address_book_manager.py:34-43 | finds a record iff the exact name is a key, and then returns that key's record; otherwise reports not found |
| `Contacts.AddStep` | address_book_manager.py:21-32 | a present name is rejected with the map unchanged and no save (never overwrites); an absent name gets exactly the given record, keys grow by that name only, every other entry is kept, and the map is saved |
| `Contacts.Merge` | address_book_manager.py:61-66 | each field takes its new value iff that value is truthy (not None, not empty), and keeps its old value otherwise |
| `Contacts.UpdateStep` | address_book_manager.py:57-70 | an absent name is rejected with the map unchanged and no save; a present name keeps the key set, gets the merged record, all other entries are kept, and the map is saved |
| `Contacts.DeleteStep` | address_book_manager.py:72-79 | a present name is removed and no other key is touched, then the map is saved; an absent name is rejected with the map unchanged and no save |
| `Contacts.ListingSize` | address_book_manager.py:50-55 | a listing has exactly as many entries as the map has names |
| `Contacts.ListingCount` | address_book_manager.py:50-55 | each (name, record) pair of the map occurs exactly once in a listing, and no other pair occurs |
| `Contacts.ListingsArePermutations` | address_book_manager.py:50 | any two listings of the same map are permutations of each other, whatever the iteration order |
| `ContactProperties.AddThenSearch` | address_book_manager.py:23-43 | a search right after a successful add returns exactly the added fields |
| `ContactProperties.AddExistingKeepsRecord` | address_book_manager.py:23-24 | adding a present name leaves its stored record as it was |
| `ContactProperties.AddThenDelete` | address_book_manager.py:23-31 | deleting a just-added name restores the earlier map |
| `ContactProperties.DeleteThenSearch` | address_book_manager.py:72-79 | after a delete, a search for that name reports not found |
| `ContactProperties.UpdateThenSearch` | address_book_manager.py:57-67 | a search after updating a present name returns the merged record |
| `ContactProperties.UpdateWithNothingGiven` | address_book_manager.py:59-68 | an update with no truthy value leaves the map unchanged, but on a present name still reports success and saves |
| `ContactProperties.UpdatePhoneOnly` | address_book_manager.py:61-66 | supplying only a phone number changes the phone and keeps email and address |
| `ContactProperties.UpdateIdempotent` | address_book_manager.py:57-67 | repeating the same update changes nothing more |

## Left out

- File I/O and JSON encoding (`open`, `json.load`, `json.dump`) are foreign library calls. Loading is a parameter: the decoded file contents as an `Option`, where None means the file is missing or not valid JSON. Saving is the assignment of the ghost snapshot `saved`. The indented formatting of the file is not modelled.
- Load errors other than a missing file or invalid JSON (permission, directory, text-encoding) raise in the source and are not modelled: the constructor always succeeds.
- Write failures during a save are not modelled; the source does not handle them.
- Shape checking of the loaded JSON is not modelled. The source catches only a missing file and a decode error, so any other JSON value would be accepted as is. The model assumes every loaded value is a map of three-field string records. For such records the `if contact:` tests in search and update are the same as "the name is a key", so an empty record counting as not found cannot arise.
- Console output is replaced by `Outcome` values. This covers the wording of each message and the separator line printed after each listed contact.
- The order in which `list_contacts` prints entries follows Python's dict insertion order. The model states the listing only up to permutation.
- The update writes through the dict that is stored in the map. A record is never shared with anything else, so the model treats records as values.
- The interactive menu (`display_menu`, `main`), `input()` and the `.strip()` and `or None` handling of user input are left out. They form a thin CLI wrapper around the class.
- The arguments of `add_contact` are modelled as strings, which is what the menu passes. Arbitrary Python values are not modelled.
