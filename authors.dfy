/** The Author record of server/models.py. The stored authors are an explicit
    table of names (AuthorStore) in place of the database session that
    validate_name queries. */
module Authors {
  import opened Validation

  /** No name occurs twice. */
  predicate Distinct(names: seq<string>)
  {
    forall i, j :: 0 <= i < j < |names| ==> names[i] != names[j]
  }

  /** The invariant of the stored author names: each present, none repeated,
      as the name column's `unique` declaration demands. */
  predicate WellFormed(names: seq<string>)
  {
    Distinct(names) && forall i :: 0 <= i < |names| ==> ValidName(names[i])
  }

  /** The table after an attempt to store an author named `val`: the row is
      added only when validate_name accepts the name. */
  function Insert(names: seq<string>, val: string): seq<string>
  {
    match ValidateName(val, names)
    case Ok(v) => names + [v]
    case Err(_) => names
  }

  /** The table after a sequence of attempts, in order. */
  function InsertAll(names: seq<string>, requests: seq<string>): seq<string>
    decreases |requests|
  {
    if requests == [] then names
    else InsertAll(Insert(names, requests[0]), requests[1..])
  }

  lemma InsertKeepsWellFormed(names: seq<string>, val: string)
    requires WellFormed(names)
    ensures WellFormed(Insert(names, val))
    ensures Insert(names, val) == names || Insert(names, val) == names + [val]
  {
  }

  /** Whatever names are requested, and in whatever order, the stored table
      never holds an empty name or the same name twice. */
  lemma {:induction false} InsertAllWellFormed(names: seq<string>, requests: seq<string>)
    requires WellFormed(names)
    ensures WellFormed(InsertAll(names, requests))
    decreases |requests|
  {
    if requests != [] {
      InsertKeepsWellFormed(names, requests[0]);
      InsertAllWellFormed(Insert(names, requests[0]), requests[1..]);
    }
  }

  /** The stored names are exactly the names stored before together with
      every non-empty name that was requested: a rejection as a duplicate
      loses nothing, because that name is already stored. */
  lemma {:induction false} InsertAllNames(names: seq<string>, requests: seq<string>)
    ensures forall n :: n in InsertAll(names, requests) <==> n in names || (n in requests && ValidName(n))
    decreases |requests|
  {
    if requests != [] {
      var next := Insert(names, requests[0]);
      assert forall n :: n in next <==> n in names || (n == requests[0] && ValidName(n));
      InsertAllNames(next, requests[1..]);
      assert forall n :: n in requests <==> n == requests[0] || n in requests[1..];
    }
  }

  /** Storing two authors of the same non-empty name, one after the other:
      the first is accepted and the second is rejected as a duplicate. */
  lemma SameNameTwice(names: seq<string>, n: string)
    requires ValidName(n) && n !in names
    ensures ValidateName(n, names) == Ok(n)
    ensures ValidateName(n, Insert(names, n)) == Err(NameTaken)
  {
  }

  /** The table after an attempt to give the author in row `row` the name
      `val`: the row is rewritten only when validate_name accepts the name. */
  function Rename(names: seq<string>, row: nat, val: string): seq<string>
    requires row < |names|
  {
    match ValidateName(val, names)
    case Ok(v) => names[row := v]
    case Err(_) => names
  }

  lemma RenameKeepsWellFormed(names: seq<string>, row: nat, val: string)
    requires WellFormed(names) && row < |names|
    ensures WellFormed(Rename(names, row, val))
    ensures Rename(names, row, val) == names || Rename(names, row, val) == names[row := val]
  {
  }

  /** The uniqueness lookup does not leave out the author being renamed, so
      a stored author cannot be given its own current name again. */
  lemma RenameToOwnName(names: seq<string>, row: nat)
    requires WellFormed(names) && row < |names|
    ensures ValidateName(names[row], names) == Err(NameTaken)
    ensures Rename(names, row, names[row]) == names
  {
  }

  /** A write to the author table: storing a new author, or renaming the
      author in an existing row. */
  datatype Change = AddRow(name: string) | RenameRow(row: nat, name: string)

  /** The table after one change. A rename of a row that does not exist
      changes nothing. */
  function Apply(names: seq<string>, c: Change): seq<string>
  {
    match c
    case AddRow(n) => Insert(names, n)
    case RenameRow(i, n) => if i < |names| then Rename(names, i, n) else names
  }

  /** The table after a sequence of changes, in order. */
  function ApplyAll(names: seq<string>, changes: seq<Change>): seq<string>
    decreases |changes|
  {
    if changes == [] then names
    else ApplyAll(Apply(names, changes[0]), changes[1..])
  }

  /** Whatever mix of inserts and renames is made, each routed through
      validate_name, the stored table never holds an empty name or the same
      name twice. */
  lemma {:induction false} ApplyAllWellFormed(names: seq<string>, changes: seq<Change>)
    requires WellFormed(names)
    ensures WellFormed(ApplyAll(names, changes))
    decreases |changes|
  {
    if changes != [] {
      match changes[0] {
        case AddRow(n) => InsertKeepsWellFormed(names, n);
        case RenameRow(i, n) =>
          if i < |names| {
            RenameKeepsWellFormed(names, i, n);
          }
      }
      ApplyAllWellFormed(Apply(names, changes[0]), changes[1..]);
    }
  }

  /** The persisted author names, queried by validate_name. */
  class AuthorStore {
    var names: seq<string>

    ghost predicate Valid()
      reads this
    {
      WellFormed(names)
    }

    constructor ()
      ensures Valid() && names == []
    {
      names := [];
    }

    /** Validates the name and stores the author only when it is accepted. */
    method AddAuthor(val: string) returns (r: Result<string>)
      requires Valid()
      modifies this
      ensures Valid()
      ensures r == ValidateName(val, old(names))
      ensures names == Insert(old(names), val)
    {
      r := ValidateName(val, names);
      InsertKeepsWellFormed(names, val);
      if r.Ok? {
        names := names + [r.value];
      }
    }

    /** Gives the stored author in row `row` the name `val`, which is written
        to the row only when validate_name accepts it. The lookup searches
        every row, this author's own included. */
    method RenameAuthor(row: nat, val: string) returns (r: Result<string>)
      requires Valid() && row < |names|
      modifies this
      ensures Valid()
      ensures r == ValidateName(val, old(names))
      ensures names == Rename(old(names), row, val)
      ensures val == old(names)[row] ==> r == Err(NameTaken) && names == old(names)
    {
      r := ValidateName(val, names);
      RenameKeepsWellFormed(names, row, val);
      if r.Ok? {
        names := names[row := r.value];
      }
    }
  }

  /** An author record in memory. A field is None until it is first assigned;
      each setter runs the field's validator and stores only what it returns. */
  class Author {
    var name: Option<string>
    var phoneNumber: Option<string>

    ghost predicate Valid()
      reads this
    {
      (name.Some? ==> ValidName(name.value)) &&
      (phoneNumber.Some? ==> ValidPhone(phoneNumber.value))
    }

    constructor ()
      ensures Valid() && name == None && phoneNumber == None
    {
      name := None;
      phoneNumber := None;
    }

    /** Assigns the name through validate_name. The lookup does not leave out
        this author's own row, so assigning a stored author its current name
        again is rejected as a duplicate. */
    method SetName(val: string, store: AuthorStore) returns (r: Result<string>)
      requires Valid()
      modifies this`name
      ensures Valid()
      ensures r == ValidateName(val, store.names)
      ensures name == (if r.Ok? then Some(val) else old(name))
      ensures old(name) == Some(val) && val in store.names ==> r == Err(NameTaken)
    {
      r := ValidateName(val, store.names);
      if r.Ok? {
        name := Some(r.value);
      }
    }

    /** Assigns the phone number through validate_phone_number. Assigning the
        current number again succeeds and changes nothing. */
    method SetPhoneNumber(val: string) returns (r: Result<string>)
      requires Valid()
      modifies this`phoneNumber
      ensures Valid()
      ensures r == ValidatePhoneNumber(val)
      ensures phoneNumber == (if r.Ok? then Some(val) else old(phoneNumber))
      ensures old(phoneNumber) == Some(val) ==> r == Ok(val)
    {
      r := ValidatePhoneNumber(val);
      if r.Ok? {
        phoneNumber := Some(r.value);
      }
    }
  }
}
