/** The Post record of server/models.py. */
module Posts {
  import opened Validation

  /** A post in memory. A field is None until it is first assigned; each
      setter runs the field's validator and stores only what it returns, so a
      rejected assignment leaves every field as it was. */
  class Post {
    var title: Option<string>
    var content: Option<string>
    var category: Option<string>
    var summary: Option<string>

    ghost predicate Valid()
      reads this
    {
      (title.Some? ==> ValidTitle(title.value)) &&
      (content.Some? ==> ValidContent(content.value)) &&
      (category.Some? ==> ValidCategory(category.value)) &&
      (summary.Some? ==> ValidSummary(summary.value))
    }

    constructor ()
      ensures Valid()
      ensures title == None && content == None && category == None && summary == None
    {
      title, content, category, summary := None, None, None, None;
    }

    /** Assigns the title through validate_title. */
    method SetTitle(val: string) returns (r: Result<string>)
      requires Valid()
      modifies this`title
      ensures Valid()
      ensures r == ValidateTitle(val)
      ensures title == (if r.Ok? then Some(val) else old(title))
      ensures old(title) == Some(val) ==> r == Ok(val)
    {
      r := ValidateTitle(val);
      if r.Ok? {
        title := Some(r.value);
      }
    }

    /** Assigns the content through validate_length with the key "content". */
    method SetContent(val: string) returns (r: Result<string>)
      requires Valid()
      modifies this`content
      ensures Valid()
      ensures r == ValidateLength("content", val)
      ensures content == (if r.Ok? then Some(val) else old(content))
      ensures old(content) == Some(val) ==> r == Ok(val)
    {
      r := ValidateLength("content", val);
      if r.Ok? {
        content := Some(r.value);
      }
    }

    /** Assigns the summary through validate_length with the key "summary". */
    method SetSummary(val: string) returns (r: Result<string>)
      requires Valid()
      modifies this`summary
      ensures Valid()
      ensures r == ValidateLength("summary", val)
      ensures summary == (if r.Ok? then Some(val) else old(summary))
      ensures old(summary) == Some(val) ==> r == Ok(val)
    {
      r := ValidateLength("summary", val);
      if r.Ok? {
        summary := Some(r.value);
      }
    }

    /** Assigns the category through validate_category. */
    method SetCategory(val: string) returns (r: Result<string>)
      requires Valid()
      modifies this`category
      ensures Valid()
      ensures r == ValidateCategory(val)
      ensures category == (if r.Ok? then Some(val) else old(category))
      ensures old(category) == Some(val) ==> r == Ok(val)
    {
      r := ValidateCategory(val);
      if r.Ok? {
        category := Some(r.value);
      }
    }
  }
}
