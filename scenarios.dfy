/** Clients of the records: what a caller can conclude from the setters'
    contracts alone. */
module Scenarios {
  import opened Validation
  import opened Authors
  import opened Posts

  /** A first author named "Jane Doe" is stored; a second one by that name is
      refused, and so are malformed phone numbers. */
  method AuthorScenario()
  {
    var store := new AuthorStore();
    var r := store.AddAuthor("Jane Doe");
    assert r == Ok("Jane Doe");

    var a := new Author();
    var p := a.SetPhoneNumber("5551234567");
    assert p.Ok? && a.phoneNumber == Some("5551234567");
    p := a.SetPhoneNumber("555-123-4567");
    assert p == Err(PhoneNotTenDigits) && a.phoneNumber == Some("5551234567");
    p := a.SetPhoneNumber("12345");
    assert p == Err(PhoneNotTenDigits);

    var n := a.SetName("Jane Doe", store);
    assert n == Err(NameTaken) && a.name == None;
    n := a.SetName("", store);
    assert n == Err(NameMissing);
    r := store.AddAuthor("Jane Doe");
    assert r == Err(NameTaken) && store.names == ["Jane Doe"];
  }

  /** A stored author cannot be renamed to its own name or to another
      author's, only to a free one. */
  method RenameScenario()
  {
    var store := new AuthorStore();
    var r := store.AddAuthor("Jane Doe");
    r := store.AddAuthor("John Roe");
    assert store.names == ["Jane Doe", "John Roe"];
    r := store.RenameAuthor(0, "Jane Doe");
    assert r == Err(NameTaken);
    r := store.RenameAuthor(0, "John Roe");
    assert r == Err(NameTaken) && store.names == ["Jane Doe", "John Roe"];
    r := store.RenameAuthor(0, "Jane Smith");
    assert r.Ok? && store.names == ["Jane Smith", "John Roe"];
  }

  /** A post with a marked title, a 300-character content, a 100-character
      summary and the category "Fiction" is accepted field by field. */
  method PostScenario()
  {
    var post := new Post();
    assert OccursAt("Top 10 Secrets", "Top", 0);
    var t := post.SetTitle("Top 10 Secrets");
    assert t.Ok?;
    t := post.SetTitle("Hi");
    assert t == Err(TitleNotClickbait) && post.title == Some("Top 10 Secrets");
    t := post.SetTitle("");
    assert t == Err(TitleMissing);

    var c := post.SetContent(seq(300, _ => 'x'));
    assert c.Ok?;
    c := post.SetContent(seq(249, _ => 'x'));
    assert c == Err(ContentTooShort) && post.content == Some(seq(300, _ => 'x'));

    var s := post.SetSummary(seq(100, _ => 'x'));
    assert s.Ok?;
    s := post.SetSummary(seq(251, _ => 'x'));
    assert s == Err(SummaryTooLong);

    var g := post.SetCategory("Fiction");
    assert g.Ok?;
    g := post.SetCategory("Mystery");
    assert g == Err(CategoryUnknown) && post.category == Some("Fiction");
  }
}
