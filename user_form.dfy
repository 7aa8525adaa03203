/**
 * The create/edit form: the whitespace trimming and email pattern its
 * validation relies on, the validation itself, the single-field change
 * handler and the submit step that calls the store.
 */
module UserForm {
  import opened Wrappers
  import opened UsersContext

  // ---------------------------------------------------------------------------
  // Whitespace and trimming
  // ---------------------------------------------------------------------------

  /** The characters that string trimming removes and that the pattern class `\s` matches (one set in the language of the program). */
  predicate IsWhitespace(c: char) {
    c == ' ' || c == '\t' || c == '\n' || c == '\r' || c == '\U{000B}' || c == '\U{000C}'
    || c == '\U{00A0}' || c == '\U{1680}' || ('\U{2000}' <= c <= '\U{200A}')
    || c == '\U{2028}' || c == '\U{2029}' || c == '\U{202F}' || c == '\U{205F}'
    || c == '\U{3000}' || c == '\U{FEFF}'
  }

  predicate AllWhitespace(s: string) {
    forall k :: 0 <= k < |s| ==> IsWhitespace(s[k])
  }

  function TrimStart(s: string): string {
    if |s| > 0 && IsWhitespace(s[0]) then TrimStart(s[1..]) else s
  }

  function TrimEnd(s: string): string {
    if |s| > 0 && IsWhitespace(s[|s| - 1]) then TrimEnd(s[..|s| - 1]) else s
  }

  /** The string without its leading and trailing whitespace. */
  function Trim(s: string): string {
    TrimEnd(TrimStart(s))
  }

  /** A field counts as missing when nothing is left of it after trimming. */
  predicate Blank(s: string) {
    Trim(s) == ""
  }

  lemma {:induction false} TrimStartEmpty(s: string)
    ensures TrimStart(s) == [] <==> AllWhitespace(s)
    ensures TrimStart(s) != [] ==> !IsWhitespace(TrimStart(s)[0])
  {
    if |s| > 0 && IsWhitespace(s[0]) {
      TrimStartEmpty(s[1..]);
      assert AllWhitespace(s) <==> AllWhitespace(s[1..]) by {
        if AllWhitespace(s[1..]) {
          forall k | 0 <= k < |s| ensures IsWhitespace(s[k]) {
            if k > 0 { assert s[k] == s[1..][k - 1]; }
          }
        }
      }
    }
  }

  lemma {:induction false} TrimEndEmpty(s: string)
    ensures TrimEnd(s) == [] <==> AllWhitespace(s)
  {
    if |s| > 0 && IsWhitespace(s[|s| - 1]) {
      var front := s[..|s| - 1];
      TrimEndEmpty(front);
      assert AllWhitespace(s) <==> AllWhitespace(front) by {
        if AllWhitespace(front) {
          forall k | 0 <= k < |s| ensures IsWhitespace(s[k]) {
            if k < |s| - 1 { assert s[k] == front[k]; }
          }
        }
      }
    }
  }

  /** Trimming leaves nothing exactly when every character is whitespace. */
  lemma BlankIffAllWhitespace(s: string)
    ensures Blank(s) <==> AllWhitespace(s)
  {
    TrimStartEmpty(s);
    var t := TrimStart(s);
    TrimEndEmpty(t);
  }

  // ---------------------------------------------------------------------------
  // The email pattern  ^[^\s@]+@[^\s@]+\.[^\s@]+$
  // ---------------------------------------------------------------------------

  /** A character of the class `[^\s@]`. */
  predicate PatternChar(c: char) {
    !IsWhitespace(c) && c != '@'
  }

  /** A match of `[^\s@]+`. */
  predicate Segment(t: string) {
    |t| > 0 && forall k :: 0 <= k < |t| ==> PatternChar(t[k])
  }

  /** The whole string matches: a segment, `@`, a segment, a literal dot, a segment. */
  predicate MatchesEmailPattern(s: string) {
    exists i, j :: 0 <= i < j < |s| && s[i] == '@' && s[j] == '.'
      && Segment(s[..i]) && Segment(s[i + 1..j]) && Segment(s[j + 1..])
  }

  /**
   * The shape of an accepted address in plain terms: no whitespace, exactly
   * one `@`, not at the start, and after it a dot that is neither the first
   * nor the last character of the domain.
   */
  predicate EmailShape(s: string) {
    (forall k :: 0 <= k < |s| ==> !IsWhitespace(s[k]))
    && (exists i ::
          && 0 < i < |s| && s[i] == '@'
          && (forall k :: 0 <= k < |s| && k != i ==> s[k] != '@')
          && (exists j :: i + 1 < j < |s| - 1 && s[j] == '.'))
  }

  lemma PatternGivesShape(s: string, i: int, j: int)
    requires 0 <= i < j < |s| && s[i] == '@' && s[j] == '.'
    requires Segment(s[..i]) && Segment(s[i + 1..j]) && Segment(s[j + 1..])
    ensures EmailShape(s)
  {
    forall k | 0 <= k < |s| && k != i && k != j ensures PatternChar(s[k]) {
      if k < i {
        assert s[k] == s[..i][k];
      } else if k < j {
        assert s[k] == s[i + 1..j][k - i - 1];
      } else {
        assert s[k] == s[j + 1..][k - j - 1];
      }
    }
    assert |s[i + 1..j]| > 0 && |s[j + 1..]| > 0;
  }

  lemma ShapeGivesPattern(s: string, i: int, j: int)
    requires 0 < i < |s| && s[i] == '@'
    requires forall k :: 0 <= k < |s| ==> !IsWhitespace(s[k])
    requires forall k :: 0 <= k < |s| && k != i ==> s[k] != '@'
    requires i + 1 < j < |s| - 1 && s[j] == '.'
    ensures MatchesEmailPattern(s)
  {
    assert Segment(s[..i]) && Segment(s[i + 1..j]) && Segment(s[j + 1..]);
  }

  /** An email matches the pattern exactly when it has the plain shape: one `@`, no whitespace, an inner dot after the `@`. */
  lemma EmailPatternIffShape(s: string)
    ensures MatchesEmailPattern(s) <==> EmailShape(s)
  {
    if MatchesEmailPattern(s) {
      var i, j :| 0 <= i < j < |s| && s[i] == '@' && s[j] == '.'
        && Segment(s[..i]) && Segment(s[i + 1..j]) && Segment(s[j + 1..]);
      PatternGivesShape(s, i, j);
    }
    if EmailShape(s) {
      var i :| 0 < i < |s| && s[i] == '@'
        && (forall k :: 0 <= k < |s| && k != i ==> s[k] != '@')
        && exists j :: i + 1 < j < |s| - 1 && s[j] == '.';
      var j :| i + 1 < j < |s| - 1 && s[j] == '.';
      ShapeGivesPattern(s, i, j);
    }
  }

  /** An email that matches the pattern is never blank, so the two email messages cannot both apply. */
  lemma PatternImpliesNotBlank(s: string)
    requires MatchesEmailPattern(s)
    ensures !Blank(s)
  {
    var i, j :| 0 <= i < j < |s| && s[i] == '@' && s[j] == '.'
      && Segment(s[..i]) && Segment(s[i + 1..j]) && Segment(s[j + 1..]);
    BlankIffAllWhitespace(s);
    assert !IsWhitespace(s[i]);
  }

  // ---------------------------------------------------------------------------
  // Validation
  // ---------------------------------------------------------------------------

  const FirstNameRequired: string := "El nombre es obligatorio"
  const LastNameRequired: string := "El apellido es obligatorio"
  const EmailRequired: string := "El email es obligatorio"
  const EmailInvalid: string := "El email no es válido"

  /** The message per field; `None` where the field has no message (absent or cleared). */
  datatype Errors = Errors(firstName: Option<string>, lastName: Option<string>, email: Option<string>) {
    predicate IsEmpty() {
      firstName.None? && lastName.None? && email.None?
    }
  }

  const NoErrors: Errors := Errors(None, None, None)

  /** The form is accepted: both names are not blank and the email matches the pattern. */
  predicate IsValid(form: UserData) {
    !Blank(form.firstName) && !Blank(form.lastName) && MatchesEmailPattern(form.email)
  }

  /** What validation reports for a form, field by field. */
  predicate ErrorsReport(form: UserData, e: Errors) {
    && (e.firstName.Some? <==> Blank(form.firstName))
    && (e.firstName.Some? ==> e.firstName.value == FirstNameRequired)
    && (e.lastName.Some? <==> Blank(form.lastName))
    && (e.lastName.Some? ==> e.lastName.value == LastNameRequired)
    && (Blank(form.email) ==> e.email == Some(EmailRequired))
    && (!Blank(form.email) ==> (e.email.Some? <==> !MatchesEmailPattern(form.email)))
    && (!Blank(form.email) && e.email.Some? ==> e.email.value == EmailInvalid)
  }

  /** Builds the error record field by field; it is empty exactly when the form is valid. */
  method CollectErrors(form: UserData) returns (newErrors: Errors)
    ensures ErrorsReport(form, newErrors)
    ensures newErrors.IsEmpty() <==> IsValid(form)
  {
    newErrors := NoErrors;
    if Blank(form.firstName) {
      newErrors := newErrors.(firstName := Some(FirstNameRequired));
    }
    if Blank(form.lastName) {
      newErrors := newErrors.(lastName := Some(LastNameRequired));
    }
    if Blank(form.email) {
      newErrors := newErrors.(email := Some(EmailRequired));
      if MatchesEmailPattern(form.email) {
        PatternImpliesNotBlank(form.email);
      }
    } else if !MatchesEmailPattern(form.email) {
      newErrors := newErrors.(email := Some(EmailInvalid));
    }
  }

  // ---------------------------------------------------------------------------
  // Single-field edits
  // ---------------------------------------------------------------------------

  /** The three inputs of the form, named as their `name` attributes are. */
  datatype Field = FirstName | LastName | Email

  function FieldOf(form: UserData, f: Field): string {
    match f
    case FirstName => form.firstName
    case LastName => form.lastName
    case Email => form.email
  }

  function ErrorOf(errors: Errors, f: Field): Option<string> {
    match f
    case FirstName => errors.firstName
    case LastName => errors.lastName
    case Email => errors.email
  }

  const EmptyForm: UserData := UserData("", "", "")

  // ---------------------------------------------------------------------------
  // The form page
  // ---------------------------------------------------------------------------

  /** The form's state: the route's id (none when creating), the field values and the shown errors. */
  class UserFormPage {
    const routeId: Option<int>
    var form: UserData
    var errors: Errors

    /** Opens the form; when editing, the fields are filled from the stored user only if it is found. */
    constructor (routeId: Option<int>, users: seq<User>)
      ensures this.routeId == routeId && errors == NoErrors
      ensures routeId.Some? && GetUserById(users, routeId.value).Some? ==>
        form == DataOf(GetUserById(users, routeId.value).value)
      ensures routeId.None? || GetUserById(users, routeId.value).None? ==> form == EmptyForm
    {
      this.routeId := routeId;
      form := EmptyForm;
      errors := NoErrors;
      if routeId.Some? {
        var user := GetUserById(users, routeId.value);
        if user.Some? {
          form := DataOf(user.value);
        }
      }
    }

    /** Sets one field and clears that field's error; every other field and error is kept. */
    method HandleChange(field: Field, value: string)
      modifies this`form, this`errors
      ensures FieldOf(form, field) == value && ErrorOf(errors, field).None?
      ensures forall g :: g != field ==> FieldOf(form, g) == FieldOf(old(form), g)
      ensures forall g :: g != field ==> ErrorOf(errors, g) == ErrorOf(old(errors), g)
    {
      match field
      case FirstName =>
        form := form.(firstName := value);
        errors := errors.(firstName := None);
      case LastName =>
        form := form.(lastName := value);
        errors := errors.(lastName := None);
      case Email =>
        form := form.(email := value);
        errors := errors.(email := None);
    }

    /** Records the validation errors of the current form and says whether there were none. */
    method Validate() returns (ok: bool)
      modifies this`errors
      ensures ErrorsReport(form, errors)
      ensures ok <==> errors.IsEmpty()
      ensures ok <==> IsValid(form)
    {
      var newErrors := CollectErrors(form);
      errors := newErrors;
      ok := newErrors.IsEmpty();
    }

    /**
     * Validates, and only when that passes makes exactly one store call:
     * an edit of the route's id without avatar when editing, else an add
     * with the id `newId` the clock would have supplied.
     */
    method HandleSubmit(store: Store, newId: int) returns (submitted: bool)
      modifies this`errors, store
      ensures submitted <==> IsValid(form)
      ensures ErrorsReport(form, errors)
      ensures !submitted ==> store.Snapshot() == old(store.Snapshot())
      ensures submitted && routeId.Some? ==>
        store.Snapshot() == EditUserState(old(store.Snapshot()), routeId.value, form, None)
      ensures submitted && routeId.None? ==>
        store.Snapshot() == Reduce(old(store.Snapshot()), Action.AddUser(NewUser(newId, form, None)))
    {
      submitted := Validate();
      if !submitted {
        return;
      }
      if routeId.Some? {
        store.EditUser(routeId.value, form, None);
      } else {
        store.AddUser(newId, form, None);
      }
    }
  }
}
