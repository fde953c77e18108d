/** Write-time field validators of the Author and Post records
    (server/models.py). Every validator either rejects its argument with one
    of the messages below or returns the argument unchanged, which is then
    stored in the field. */
module Validation {

  /** One constructor per ValueError the validators raise. */
  datatype ValidationError =
    | NameMissing
    | NameTaken
    | PhoneNotTenDigits
    | TitleMissing
    | TitleNotClickbait
    | ContentTooShort
    | SummaryTooLong
    | CategoryUnknown

  /** The exact message each rejection carries. The title message reads as
      praise although it is raised for a title that has no marker. */
  function Message(e: ValidationError): (r: string)
    ensures |r| > 0 && r[|r| - 1] == '.'
  {
    match e
    case NameMissing => "All authors must have a name."
    case NameTaken => "No two authors have the same name."
    case PhoneNotTenDigits => "Author phone numbers are exactly ten digits."
    case TitleMissing => "Post must have a title."
    case TitleNotClickbait => "Post title is sufficiently clickbait-y."
    case ContentTooShort => "Post content is at least 250 characters long."
    case SummaryTooLong => "Post summary is a maximum of 250 characters."
    case CategoryUnknown => "Post category is either Fiction or Non-Fiction."
  }

  /** Each rejection is told apart by its text alone. */
  lemma MessagesDistinct(e1: ValidationError, e2: ValidationError)
    ensures e1 != e2 ==> Message(e1) != Message(e2)
  {
  }

  /** The outcome of a validator: the value to store, or the error raised. */
  datatype Result<T> = Ok(value: T) | Err(error: ValidationError)

  /** A field that has not been assigned yet holds None. */
  datatype Option<T> = None | Some(value: T)

  const PhoneLength: nat := 10
  const ContentMinLength: nat := 250
  const SummaryMaxLength: nat := 250
  const TitleMarkers: seq<string> := ["Won't Believe", "Secret", "Top", "Guess"]

  /*************************** Digits *****************************/

  /** A decimal digit; only the ASCII digits are modelled. */
  predicate IsDigit(c: char)
  {
    '0' <= c <= '9'
  }

  /** Python's str.isdigit: false on the empty string, otherwise true iff
      every character is a digit. */
  function IsDigitString(s: string): (b: bool)
    ensures b <==> |s| > 0 && forall i :: 0 <= i < |s| ==> IsDigit(s[i])
  {
    if |s| == 0 then false
    else if |s| == 1 then IsDigit(s[0])
    else IsDigit(s[0]) && IsDigitString(s[1..])
  }

  /************************* Substrings ***************************/

  /** `sub` appears in `s` starting at index `i`. */
  predicate OccursAt(s: string, sub: string, i: nat)
  {
    i + |sub| <= |s| && s[i..i + |sub|] == sub
  }

  /** `sub` appears somewhere in `s`: the meaning of Python's `sub in s`. */
  ghost predicate Occurs(s: string, sub: string)
  {
    exists i: nat :: i <= |s| && OccursAt(s, sub, i)
  }

  /** Python's `sub in s`, computed by trying each start position in turn. */
  function Contains(s: string, sub: string): bool
    decreases |s|
  {
    if sub <= s then true
    else if |s| <= |sub| then false
    else Contains(s[1..], sub)
  }

  lemma {:induction false} ContainsOccurs(s: string, sub: string)
    ensures Contains(s, sub) <==> Occurs(s, sub)
    decreases |s|
  {
    if sub <= s {
      assert OccursAt(s, sub, 0);
    } else if |s| <= |sub| {
      forall i: nat | i <= |s|
        ensures !OccursAt(s, sub, i)
      {
        if i + |sub| <= |s| {
          assert s[i..i + |sub|] == s[..|sub|];
        }
      }
    } else {
      var t := s[1..];
      ContainsOccurs(t, sub);
      if Occurs(t, sub) {
        var j: nat :| j <= |t| && OccursAt(t, sub, j);
        assert s[j + 1..j + 1 + |sub|] == t[j..j + |sub|];
        assert OccursAt(s, sub, j + 1);
      }
      if Occurs(s, sub) {
        assert !OccursAt(s, sub, 0);
        var i: nat :| i <= |s| && OccursAt(s, sub, i);
        assert t[i - 1..i - 1 + |sub|] == s[i..i + |sub|];
        assert OccursAt(t, sub, i - 1);
      }
    }
  }

  /** Python's `any(opt in s for opt in options)`. */
  function ContainsAny(s: string, options: seq<string>): bool
  {
    if options == [] then false
    else Contains(s, options[0]) || ContainsAny(s, options[1..])
  }

  lemma {:induction false} ContainsAnyExists(s: string, options: seq<string>)
    ensures ContainsAny(s, options) <==> exists k :: 0 <= k < |options| && Contains(s, options[k])
  {
    if options != [] {
      var rest := options[1..];
      ContainsAnyExists(s, rest);
      if ContainsAny(s, rest) {
        var k :| 0 <= k < |rest| && Contains(s, rest[k]);
        assert options[k + 1] == rest[k];
      }
      if exists k :: 0 <= k < |options| && Contains(s, options[k]) {
        var k :| 0 <= k < |options| && Contains(s, options[k]);
        if k > 0 {
          assert rest[k - 1] == options[k];
        }
      }
    }
  }

  /************************ Field predicates **********************/

  /** An author's name is present: Python's truthiness of a string. */
  predicate ValidName(n: string)
  {
    n != ""
  }

  /** Exactly ten characters, all of them digits. */
  predicate ValidPhone(p: string)
  {
    |p| == PhoneLength && forall i :: 0 <= i < |p| ==> IsDigit(p[i])
  }

  /** A non-empty title that contains one of the four markers
      (case-sensitive substring search). */
  ghost predicate ValidTitle(t: string)
  {
    t != "" &&
    (Occurs(t, "Won't Believe") || Occurs(t, "Secret") || Occurs(t, "Top") || Occurs(t, "Guess"))
  }

  predicate ValidContent(c: string)
  {
    |c| >= ContentMinLength
  }

  predicate ValidSummary(s: string)
  {
    |s| <= SummaryMaxLength
  }

  predicate ValidCategory(g: string)
  {
    g == "Fiction" || g == "Non-Fiction"
  }

  /*************************** Validators *************************/

  /** validate_name: `persisted` lists the names of the stored authors, the
      rows the uniqueness query searches. The emptiness test comes first, so an
      empty name is reported as missing whatever is stored. */
  function ValidateName(val: string, persisted: seq<string>): (r: Result<string>)
    ensures !ValidName(val) ==> r == Err(NameMissing)
    ensures ValidName(val) && val in persisted ==> r == Err(NameTaken)
    ensures r.Ok? <==> ValidName(val) && val !in persisted
    ensures r.Ok? ==> r.value == val
  {
    if val == "" then Err(NameMissing)
    else if val in persisted then Err(NameTaken)
    else Ok(val)
  }

  /** validate_phone_number */
  function ValidatePhoneNumber(val: string): (r: Result<string>)
    ensures r.Ok? <==> ValidPhone(val)
    ensures r.Ok? ==> r.value == val
    ensures r.Err? ==> r.error == PhoneNotTenDigits
  {
    if |val| != PhoneLength || !IsDigitString(val) then Err(PhoneNotTenDigits)
    else Ok(val)
  }

  /** The marker search of validate_title agrees with ValidTitle's four
      substring tests. */
  lemma TitleMarkersOccur(t: string)
    ensures ContainsAny(t, TitleMarkers) <==>
            (Occurs(t, "Won't Believe") || Occurs(t, "Secret") || Occurs(t, "Top") || Occurs(t, "Guess"))
  {
    ContainsAnyExists(t, TitleMarkers);
    ContainsOccurs(t, "Won't Believe");
    ContainsOccurs(t, "Secret");
    ContainsOccurs(t, "Top");
    ContainsOccurs(t, "Guess");
    if ContainsAny(t, TitleMarkers) {
      var k :| 0 <= k < |TitleMarkers| && Contains(t, TitleMarkers[k]);
      assert k == 0 || k == 1 || k == 2 || k == 3;
    }
    if Contains(t, "Won't Believe") { assert Contains(t, TitleMarkers[0]); }
    if Contains(t, "Secret") { assert Contains(t, TitleMarkers[1]); }
    if Contains(t, "Top") { assert Contains(t, TitleMarkers[2]); }
    if Contains(t, "Guess") { assert Contains(t, TitleMarkers[3]); }
  }

  /** validate_title */
  function ValidateTitle(val: string): (r: Result<string>)
    ensures val == "" ==> r == Err(TitleMissing)
    ensures val != "" && !ValidTitle(val) ==> r == Err(TitleNotClickbait)
    ensures r.Ok? <==> ValidTitle(val)
    ensures r.Ok? ==> r.value == val
  {
    TitleMarkersOccur(val);
    if val == "" then Err(TitleMissing)
    else if !ContainsAny(val, TitleMarkers) then Err(TitleNotClickbait)
    else Ok(val)
  }

  /** validate_length, shared by the content and summary fields and told
      apart by the field name `key`. Each bound applies to its own key only;
      any other key passes through unchecked. */
  function ValidateLength(key: string, val: string): (r: Result<string>)
    ensures r.Ok? ==> r.value == val
    ensures key == "content" ==> (r.Ok? <==> ValidContent(val)) && (r.Err? ==> r.error == ContentTooShort)
    ensures key == "summary" ==> (r.Ok? <==> ValidSummary(val)) && (r.Err? ==> r.error == SummaryTooLong)
    ensures key != "content" && key != "summary" ==> r == Ok(val)
  {
    if key == "content" && |val| < ContentMinLength then Err(ContentTooShort)
    else if key == "summary" && |val| > SummaryMaxLength then Err(SummaryTooLong)
    else Ok(val)
  }

  /** validate_category */
  function ValidateCategory(val: string): (r: Result<string>)
    ensures r.Ok? <==> ValidCategory(val)
    ensures r.Ok? ==> r.value == val
    ensures r.Err? ==> r.error == CategoryUnknown
  {
    if val != "Fiction" && val != "Non-Fiction" then Err(CategoryUnknown)
    else Ok(val)
  }

  /** A value of exactly 250 characters is at both length boundaries, so it
      is accepted as content and as summary. */
  lemma LengthBoundary(val: string)
    requires |val| == 250
    ensures ValidateLength("content", val) == Ok(val)
    ensures ValidateLength("summary", val) == Ok(val)
  {
  }
}
