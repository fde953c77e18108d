# Author and Post field validation

This project models the data layer of a small blogging application. It has
two record types, `Author` and `Post`. Each of their fields is checked by a
validator when the field is assigned. A validator either raises a
`ValueError` with a fixed message or returns the value, and the value
returned is what the field stores. One validator, `validate_name`, also looks
up the names of the authors already stored, so that no two authors share a
name.

- `validation.dfy`: module `Validation`. It holds the eight rejection
  messages as the datatype `ValidationError`, and `Result` for "store this
  value or raise that error". It states each field rule as a predicate
  (`ValidName`, `ValidPhone`, `ValidTitle`, `ValidContent`, `ValidSummary`,
  `ValidCategory`). The five validators are pure functions whose contracts
  tie acceptance to those predicates. Python's `str.isdigit`, the substring
  test `in` and `any(...)` are written out as recursive functions. Lemmas
  prove them equal to quantified definitions.
- `authors.dfy`: module `Authors`. The database session that
  `validate_name` queries becomes an explicit `AuthorStore` object that
  holds the stored names in row order. `Insert` and `Rename` describe the
  table after one attempted insert or rename of a stored row; `InsertAll`
  and `ApplyAll` after a series of them. The lemmas prove that the table
  never holds an empty name or a repeated name, whatever mix of inserts and
  renames is made. They also prove that a series of inserts stores exactly
  the names already stored together with the non-empty names requested. `Author`
  is a class whose setters validate, then assign.
- `posts.dfy`: module `Posts`. `Post` is a class with one validating
  setter per field.
- `scenarios.dfy`: example scenarios, proved from the setters' contracts
  alone: "Jane Doe" stored twice; the phone
  numbers "5551234567", "555-123-4567" and "12345"; the title
  "Top 10 Secrets"; content of 300 characters; a summary of 100; the
  category "Mystery".

A field that was never assigned holds `None`. That is the Python attribute's
value before the first assignment. The setters take plain strings.

The uniqueness query at `server/models.py:21` filters on the name alone, so
it also finds the author being edited. Re-assigning a stored author's own
name is therefore rejected as a duplicate; `Author.SetName`,
`AuthorStore.RenameAuthor` and `RenameToOwnName` state this. The title message "Post title is sufficiently
clickbait-y." is raised when a title has *no* marker. It is kept as written.

## Model

| member | source | states |
|---|---|---|
| `Validation.Message` | server/models.py:20-70 | Each rejection maps to the exact text of the `ValueError` the source raises for it (lines 20, 23, 29, 51, 54, 61, 64, 70); every text is a sentence ending in a full stop. |
| `Validation.MessagesDistinct` | server/models.py:20-70 | Different rejections carry different texts, so a caller can tell the violated rule from the message alone. |
| `Validation.ValidateName` | server/models.py:18-24 | An empty name is rejected as missing whatever is stored, so emptiness is tested before the lookup. A non-empty name that is already stored is rejected as taken. Any other name is accepted, and the value returned is the argument unchanged. |
| `Validation.IsDigitString` | server/models.py:28 | `isdigit` is true iff the string is non-empty and every character is a digit `'0'..'9'`. |
| `Validation.ValidatePhoneNumber` | server/models.py:26-30 | A phone number is accepted iff it has exactly 10 characters, all of them digits. Otherwise the error is the ten-digits message. On acceptance the argument is returned unchanged. |
| `Validation.ContainsOccurs` | server/models.py:53 | The substring test `opt in val`, computed by trying each start position, is true iff `opt` occurs at some index of `val`. |
| `Validation.ContainsAnyExists` | server/models.py:53 | `any(opt in val for opt in options)` is true iff some option in the list is a substring of `val`. |
| `Validation.TitleMarkersOccur` | server/models.py:52-53 | The search over the four-marker list is true iff the title contains "Won't Believe", "Secret", "Top" or "Guess" as a case-sensitive substring. |
| `Validation.ValidateTitle` | server/models.py:48-55 | An empty title gets "Post must have a title.". A non-empty title without a marker gets the clickbait message. A title is accepted iff it is non-empty and contains a marker, and it is then returned unchanged. |
| `Validation.ValidateLength` | server/models.py:57-65 | Key "content": accepted iff the length is at least 250, otherwise the content error. Key "summary": accepted iff the length is at most 250, otherwise the summary error. Any other key passes unchecked. An accepted value is returned unchanged. |
| `Validation.LengthBoundary` | server/models.py:59-64 | A value of exactly 250 characters is accepted both as content and as summary. |
| `Validation.ValidateCategory` | server/models.py:67-71 | A category is accepted iff it is exactly "Fiction" or "Non-Fiction". Otherwise the error is the category message. On acceptance the argument is returned unchanged. |
| `Authors.InsertKeepsWellFormed` | server/models.py:11 | One attempted insert of a name keeps the stored names non-empty and pairwise distinct, as the column's `unique` flag requires. The table either stays the same or gains exactly that name. |
| `Authors.InsertAllWellFormed` | server/models.py:11 | For any sequence of attempted inserts, all routed through `validate_name`, the stored names stay non-empty and pairwise distinct. |
| `Authors.InsertAllNames` | server/models.py:19-23 | After a sequence of attempted inserts, a name is stored iff it was stored before or it was requested and is non-empty. A rejected duplicate loses nothing. |
| `Authors.RenameKeepsWellFormed` | server/models.py:11 | Renaming one stored author through `validate_name` keeps the stored names non-empty and pairwise distinct. The row either keeps its name or takes exactly the new one. |
| `Authors.RenameToOwnName` | server/models.py:21-23 | The lookup does not leave out the author being edited: a stored author's own current name is rejected as taken, and the table is unchanged. |
| `Authors.ApplyAllWellFormed` | server/models.py:11 | For any sequence of inserts and renames, all routed through `validate_name`, the stored names stay non-empty and pairwise distinct. |
| `Authors.SameNameTwice` | server/models.py:21-23 | Two authors with the same non-empty, unused name: the first is accepted and the second is rejected as taken. |
| `Authors.AuthorStore.constructor` | server/models.py:7-11 | An empty author table satisfies the table invariant. |
| `Authors.AuthorStore.AddAuthor` | server/models.py:18-24 | Returns the verdict of `validate_name` on the names stored before. The author is stored (appended) only on acceptance, and the table invariant is kept. |
| `Authors.AuthorStore.RenameAuthor` | server/models.py:17-24 | Returns the verdict of `validate_name` on the names stored before, the renamed author's own row included. The row takes the new name only on acceptance, and the table invariant is kept. Renaming an author to its current name is rejected. |
| `Authors.Author.constructor` | server/models.py:7-12 | A new author has no name and no phone number, and it satisfies the field invariant. |
| `Authors.Author.SetName` | server/models.py:17-24 | Returns `validate_name`'s verdict against the store. Only an accepted value is stored, and a rejection leaves the name unchanged. Re-assigning a stored author's current name is rejected as taken. |
| `Authors.Author.SetPhoneNumber` | server/models.py:26-30 | Returns `validate_phone_number`'s verdict. Only an accepted value is stored, so the stored number always has ten digits. Re-assigning the current number succeeds. |
| `Posts.Post.constructor` | server/models.py:36-43 | A new post has no field assigned, and it satisfies the field invariant. |
| `Posts.Post.SetTitle` | server/models.py:48-55 | Returns `validate_title`'s verdict. Only an accepted title is stored, so the stored title always holds a marker. A rejection leaves the title unchanged, and re-assigning the current title succeeds. |
| `Posts.Post.SetContent` | server/models.py:57-61 | Returns `validate_length`'s verdict under the key "content". Only an accepted value is stored, so stored content is always at least 250 characters. Re-assigning succeeds. |
| `Posts.Post.SetSummary` | server/models.py:57-65 | Returns `validate_length`'s verdict under the key "summary". Only an accepted value is stored, so a stored summary is always at most 250 characters. Re-assigning succeeds. |
| `Posts.Post.SetCategory` | server/models.py:67-71 | Returns `validate_category`'s verdict. Only "Fiction" or "Non-Fiction" is ever stored, and a rejection leaves the category unchanged. |

## Left out

- The database plumbing is not modelled: the `SQLAlchemy` object, the column declarations, table names and the session query (server/models.py:1-4, table names at lines 8 and 37, columns at lines 10-14 and 39-45). The query at line 21 is replaced by the list of names in `AuthorStore`.
- Ids and the `created_at`/`updated_at` timestamps are not modelled. The storage engine generates them.
- `__repr__` is not modelled. It only formats text.
- `AuthorStore.AddAuthor` validates and stores in one step. In the source, the name is validated when assigned, and the session writes the author out only after it is added to the session (the query at line 21 flushes pending authors first). So when a second author's name is assigned before the first author with that name has been added to the session, both pass `validate_name`. Only the database's unique constraint then stops the second one, and that constraint is not part of this model.
- An `Author` object is not linked to its row in `AuthorStore`. `Author.SetName` changes the object only; the write of the new name to the stored row is modelled separately by `AuthorStore.RenameAuthor`, which names the row by its index.
- The race between the uniqueness lookup and the write under concurrent writers is not modelled. This code does not handle it.
- `Validation.IsDigitString`: accepts only the ASCII digits. Python's `str.isdigit` also accepts other Unicode digits, and Dafny has no Unicode character database.
- Passing `None` is not modelled; values are plain strings. In the source, `None` makes `validate_phone_number` and `validate_length` raise a `TypeError` from `len()` (server/models.py:28, 60, 63), and makes `validate_name`, `validate_title` and `validate_category` raise their own `ValueError` (server/models.py:19-20, 50-51, 69-70).
- Building a record with keyword arguments is not modelled separately. SQLAlchemy assigns the arguments one at a time, in the caller's order, through the same validators. The model builds an empty record and calls the setters.
- Deleting an author is not modelled. The source has no delete code.
