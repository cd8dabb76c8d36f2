/** The compose form: the loose email check applied to every selected
    recipient, the error record rebuilt on each submit, and the form state
    (subject, description, errors, the selected customers) that submit and
    cancel change. */
module EmailForm {
  import opened Text
  import opened AutocompleteEmails

  // ---------------------------------------------------------------------------
  // validateEmail: /\S+@\S+\.\S+/ (not anchored)

  /** The pattern matches `s[a..e]`: a non-empty `\S` run `s[a..i]`, an `@` at
      index `i`, a non-empty `\S` run, a `.` at index `j` and a non-empty `\S`
      run `s[j + 1..e]`. */
  ghost predicate LooseMatchAt(s: string, a: int, i: int, j: int, e: int) {
    0 <= a < i && i + 1 < j && j + 1 < e <= |s| &&
    s[i] == '@' && s[j] == '.' &&
    NoSpace(s[a..i]) && NoSpace(s[i + 1..j]) && NoSpace(s[j + 1..e])
  }

  /** The strings in which the pattern finds a match somewhere. */
  ghost predicate MatchesLoosePattern(s: string) {
    exists a, i, j, e :: LooseMatchAt(s, a, i, j, e)
  }

  /** After the `@` at index `i`: non-whitespace up to a `.` at index `j` that
      is not right after the `@`, and a non-whitespace character after it. */
  predicate DotRunAt(s: string, i: int, j: int) {
    0 <= i && i + 1 < j < |s| - 1 && s[j] == '.' && !IsSpace(s[j + 1]) && NoSpace(s[i + 1..j])
  }

  /** A non-whitespace character, then an `@` at index `i` followed by a dot run. */
  predicate EmailAt(s: string, i: int) {
    0 < i < |s| && s[i] == '@' && !IsSpace(s[i - 1]) &&
    exists j | i + 1 < j < |s| - 1 :: DotRunAt(s, i, j)
  }

  /** The recipient check of submit, written as the shortest match. */
  predicate ValidEmail(s: string) {
    exists i | 0 < i < |s| :: EmailAt(s, i)
  }

  lemma SingleNoSpace(s: string, k: int)
    requires 0 <= k < |s| && !IsSpace(s[k])
    ensures NoSpace(s[k..k + 1])
  {
    assert s[k..k + 1] == [s[k]];
  }

  /** Every string the recipient check accepts holds a match of the regular
      expression: the shortest one around the `@` and `.` it found. */
  lemma ValidEmailMatches(s: string)
    requires ValidEmail(s)
    ensures MatchesLoosePattern(s)
  {
    var i :| 0 < i < |s| && EmailAt(s, i);
    var j :| i + 1 < j < |s| - 1 && DotRunAt(s, i, j);
    SingleNoSpace(s, i - 1);
    SingleNoSpace(s, j + 1);
    assert LooseMatchAt(s, i - 1, i, j, j + 2);
  }

  /** Every string holding a match of the regular expression passes the
      recipient check. */
  lemma LoosePatternIsValidEmail(s: string)
    requires MatchesLoosePattern(s)
    ensures ValidEmail(s)
  {
    var a, i, j, e :| LooseMatchAt(s, a, i, j, e);
    assert s[i - 1] == s[a..i][i - 1 - a];
    assert s[j + 1] == s[j + 1..e][0];
    assert DotRunAt(s, i, j);
    assert EmailAt(s, i);
  }

  /** The recipient check accepts exactly the strings in which the regular
      expression finds a match. */
  lemma ValidEmailIsLoosePattern(s: string)
    ensures ValidEmail(s) <==> MatchesLoosePattern(s)
  {
    if ValidEmail(s) {
      ValidEmailMatches(s);
    }
    if MatchesLoosePattern(s) {
      LoosePatternIsValidEmail(s);
    }
  }

  /** Every string the search field's strict check accepts also passes the
      recipient check of submit. */
  lemma StrictFormatPassesValidEmail(s: string)
    requires ValidEmailFormat(s)
    ensures ValidEmail(s)
  {
    var i :| 0 < i < |s| && AtThenDot(s, i);
    var j :| i + 1 < j < |s| - 1 && s[j] == '.';
    assert DotRunAt(s, i, j);
    assert EmailAt(s, i);
  }

  /** The recipient check is strictly looser: a second `@` is accepted. */
  lemma LooseCheckAcceptsTwoAts()
    ensures ValidEmail("x@y@z.w") && !ValidEmailFormat("x@y@z.w")
  {
    var s := "x@y@z.w";
    assert ValidEmail(s) by {
      assert s[2..5] == "y@z";
      assert s[5] == '.' && !IsSpace(s[6]) && NoSpace(s[2..5]);
      assert DotRunAt(s, 1, 5);
      assert !IsSpace(s[0]) && EmailAt(s, 1);
    }
    assert !ValidEmailFormat(s) by {
      TwoOccurrences(s, '@', 1, 3);
    }
  }

  // ---------------------------------------------------------------------------
  // The error record of handleSubmit

  /** The keys of the error record. */
  datatype Field = Subject | Description | Emails

  const SubjectRequired: string := "Subject is required"
  const DescriptionTooShort: string := "Description must be at least 10 characters"
  const RecipientRequired: string := "You must enter at least one recipient"
  const InvalidRecipient: string := "There is an invalid email in the list"

  /** `selectedCustomers.some(c => !validateEmail(c.email))` */
  predicate HasInvalidEmail(recipients: seq<Customer>) {
    exists k | 0 <= k < |recipients| :: !ValidEmail(recipients[k].email)
  }

  /** The error record one submit produces, built from nothing, one rule
      after the other; the invalid-email message replaces the missing-recipient
      one. */
  function Validate(subject: string, description: string, recipients: seq<Customer>): map<Field, string> {
    var e0: map<Field, string> := map[];
    var e1 := if Trim(subject) == [] then e0[Subject := SubjectRequired] else e0;
    var e2 := if Trim(description) == [] || Utf16Length(description) < 10
      then e1[Description := DescriptionTooShort] else e1;
    var e3 := if |recipients| == 0 then e2[Emails := RecipientRequired] else e2;
    if HasInvalidEmail(recipients) then e3[Emails := InvalidRecipient] else e3
  }

  /** The rules of submit as the error record states them: the subject is
      rejected exactly when it is blank, the body exactly when it is blank or
      shorter than ten UTF-16 code units before trimming, the recipients with
      the missing-recipient message exactly when there are none and with the
      invalid-email message exactly when some selected email fails the check. */
  lemma ValidateRules(subject: string, description: string, recipients: seq<Customer>)
    ensures Validate(subject, description, recipients).Keys <= {Subject, Description, Emails}
    ensures Subject in Validate(subject, description, recipients) <==> IsBlank(subject)
    ensures Description in Validate(subject, description, recipients) <==>
      IsBlank(description) || Utf16Length(description) < 10
    ensures var errors := Validate(subject, description, recipients);
      (Emails in errors && errors[Emails] == RecipientRequired) <==> recipients == []
    ensures var errors := Validate(subject, description, recipients);
      (Emails in errors && errors[Emails] == InvalidRecipient) <==>
        recipients != [] && exists k | 0 <= k < |recipients| :: !ValidEmail(recipients[k].email)
    ensures var errors := Validate(subject, description, recipients);
      && (Subject in errors ==> errors[Subject] == SubjectRequired)
      && (Description in errors ==> errors[Description] == DescriptionTooShort)
      && (Emails in errors ==> errors[Emails] == RecipientRequired || errors[Emails] == InvalidRecipient)
  {
    assert RecipientRequired[0] != InvalidRecipient[0];
  }

  /** Submit goes through exactly when every field passes its rule. */
  lemma ValidateEmptyExactly(subject: string, description: string, recipients: seq<Customer>)
    ensures Validate(subject, description, recipients) == map[] <==>
      && !IsBlank(subject)
      && !IsBlank(description) && Utf16Length(description) >= 10
      && recipients != []
      && forall k | 0 <= k < |recipients| :: ValidEmail(recipients[k].email)
  {
    var errors := Validate(subject, description, recipients);
    ValidateRules(subject, description, recipients);
    if errors != map[] {
      var f :| f in errors;
    }
  }

  /** An empty subject, a short body and no recipients fail all three rules. */
  lemma EverythingMissingFailsAllRules()
    ensures Validate("", "short", []) ==
      map[Subject := SubjectRequired, Description := DescriptionTooShort, Emails := RecipientRequired]
  {
  }

  /** A subject, a ten-character body and one well-formed recipient pass. */
  lemma CompleteFormPasses(subject: string, description: string, recipients: seq<Customer>)
    requires subject == "Hi" && description == "0123456789"
    requires recipients == [Customer(1, "", "a@b.co")]
    ensures Validate(subject, description, recipients) == map[]
  {
    var email := recipients[0].email;
    assert ValidEmail(email) by {
      assert email[2..3] == "b";
      assert email[3] == '.' && !IsSpace(email[4]) && NoSpace(email[2..3]);
      assert DotRunAt(email, 1, 3);
      assert email[1] == '@' && !IsSpace(email[0]) && EmailAt(email, 1);
    }
    assert !IsBlank(subject) by { assert !IsSpace(subject[0]); }
    assert !IsBlank(description) by { assert !IsSpace(description[0]); }
    assert Utf16Length(description) >= 10;
    ValidateEmptyExactly(subject, description, recipients);
  }

  /** The length rule counts the untrimmed body: three letters padded with
      spaces to ten characters pass it, although the trimmed body is shorter
      than ten characters. */
  lemma PaddedShortDescriptionPasses(subject: string, recipients: seq<Customer>)
    ensures |Trim("   abc    ")| < 10
    ensures Description !in Validate(subject, "   abc    ", recipients)
  {
    var d := "   abc    ";
    assert LeadingSpaces(d) == 3 by {
      assert d[1..][1..][1..] == "abc    ";
    }
    assert !IsBlank(d) by { assert !IsSpace(d[3]); }
    assert Utf16Length(d) >= |d|;
    ValidateRules(subject, d, recipients);
  }

  // ---------------------------------------------------------------------------
  // The component

  class ComposeForm {
    var subject: string
    var description: string
    var errors: map<Field, string>
    const selected: SelectedCustomers
    const picker: Picker

    constructor ()
      ensures subject == "" && description == "" && errors == map[]
      ensures fresh(selected) && selected.list == []
      ensures fresh(picker) && picker.selected == selected
      ensures picker.input == "" && picker.suggestions == [] && !picker.loading && picker.emailError == None
    {
      subject := "";
      description := "";
      errors := map[];
      var cell := new SelectedCustomers();
      selected := cell;
      picker := new Picker(cell);
    }

    /** handleSubmit: rebuild the error record; when it is empty, hand the
      message off (`submitted`) and reset subject, body and recipients,
      otherwise leave them as they are. */
    method Submit() returns (submitted: bool)
      modifies this, selected
      ensures errors == Validate(old(subject), old(description), old(selected.list))
      ensures submitted <==> errors == map[]
      ensures submitted ==> subject == "" && description == "" && selected.list == []
      ensures !submitted ==>
        subject == old(subject) && description == old(description) && selected.list == old(selected.list)
    {
      var list := selected.list;
      var newErrors: map<Field, string> := map[];
      if Trim(subject) == [] {
        newErrors := newErrors[Subject := SubjectRequired];
      }
      if Trim(description) == [] || Utf16Length(description) < 10 {
        newErrors := newErrors[Description := DescriptionTooShort];
      }
      if |list| == 0 {
        newErrors := newErrors[Emails := RecipientRequired];
      }
      if HasInvalidEmail(list) {
        newErrors := newErrors[Emails := InvalidRecipient];
      }
      assert newErrors == Validate(subject, description, list);
      errors := newErrors;
      if |newErrors| > 0 {
        submitted := false;
        return;
      }
      submitted := true;
      subject := "";
      description := "";
      selected.list := [];
    }

    /** The Cancel button: only the recipients are cleared. */
    method Cancel()
      modifies selected
      ensures selected.list == []
      ensures unchanged(this)
    {
      selected.list := [];
    }
  }

  /** Typing a non-address shows the format error and does not stop the
      lookup: the suggestions are still the matches for the typed text. */
  method FormatErrorDoesNotBlockLookup(picker: Picker, directory: seq<Customer>)
    returns (fetched: bool)
    modifies picker
    ensures fetched
    ensures picker.emailError == Some(InvalidFormatMessage)
    ensures picker.suggestions == Suggest(directory, "not-an-email")
  {
    var typed := "not-an-email";
    assert '@' !in typed;
    picker.OnChange(typed);
    fetched := picker.DebounceFire(Success(directory));
  }
}
