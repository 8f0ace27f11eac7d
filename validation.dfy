/** The form check run on every submit: five independent field rules, none short-circuiting. */
module Validation {
  import opened Tickets
  import opened Text

  /** The form inputs that can carry an error message. */
  datatype Field = SubjectField | StatusField | PriorityField | MessageField | AuthorField

  /** Whether `f`'s rule rejects the submission. Ids are only required to be selected, not to exist in a catalog. */
  predicate Violates(d: FormData, f: Field) {
    match f
    case SubjectField => Utf16Length(d.subject) < 4
    case StatusField => d.status.None?
    case PriorityField => d.priority.None?
    case MessageField => Utf16Length(d.message) < 8
    case AuthorField => d.author.None?
  }

  /** The message shown next to a rejected input. */
  function ErrorText(f: Field): string {
    match f
    case SubjectField => "Minimum 4 symbols"
    case StatusField => "Choose status"
    case PriorityField => "Choose priority"
    case MessageField => "Too short"
    case AuthorField => "Choose name"
  }

  /** The accepted submissions, stated as one conjunction; lengths are `.length`, in UTF-16 code units. */
  predicate Acceptable(d: FormData) {
    4 <= Utf16Length(d.subject) && d.status.Some? && d.priority.Some? && 8 <= Utf16Length(d.message)
    && d.author.Some?
  }

  /**
   * Runs every rule in turn, recording an error for each failing field and
   * clearing the `valid` flag; the form is valid exactly when no rule failed.
   */
  method Validate(d: FormData) returns (valid: bool, errors: map<Field, string>)
    ensures forall f :: f in errors <==> Violates(d, f)
    ensures forall f :: f in errors ==> errors[f] == ErrorText(f)
    ensures valid <==> errors == map[]
    ensures valid <==> Acceptable(d)
  {
    valid := true;
    errors := map[];
    if Utf16Length(d.subject) < 4 {
      errors := errors[SubjectField := ErrorText(SubjectField)];
      valid := false;
    }
    if d.status.None? {
      errors := errors[StatusField := ErrorText(StatusField)];
      valid := false;
    }
    if d.priority.None? {
      errors := errors[PriorityField := ErrorText(PriorityField)];
      valid := false;
    }
    if Utf16Length(d.message) < 8 {
      errors := errors[MessageField := ErrorText(MessageField)];
      valid := false;
    }
    if d.author.None? {
      errors := errors[AuthorField := ErrorText(AuthorField)];
      valid := false;
    }
  }

  /** The `Number(...)` coercion of the selected ids, for a submission that passed the rules. */
  function FieldsOf(d: FormData): Fields
    requires Acceptable(d)
  {
    Fields(d.subject, d.status.value, d.priority.value, d.message, d.author.value)
  }

  /** A character above U+FFFF counts twice: a two-letter subject ending in an emoji is long enough. */
  lemma AstralCharCountsTwice()
    ensures Utf16Length("ab\U{1F600}") == 4
    ensures Acceptable(FormData("ab\U{1F600}", Some(1), Some(High), "12345678", Some(1)))
  {
  }
}
