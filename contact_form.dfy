/**
 * The contact form's data and its validation rules: one rule per field,
 * collected into the field-to-message map that the form shows inline.
 */
module ContactForm {
  import opened Text
  import opened EmailPattern
  import opened Options

  /** The three inputs of the form, named `name`, `email` and `message`. */
  datatype Field = Name | Email | Message

  const AllFields: set<Field> := {Name, Email, Message}

  /** The `formData` record. */
  datatype FormData = FormData(name: string, email: string, message: string) {

    function Get(f: Field): string {
      match f
      case Name => name
      case Email => email
      case Message => message
    }

    /** `{ ...prev, [field]: value }`: the named field replaced, the others kept. */
    function With(f: Field, value: string): (r: FormData)
      ensures r.Get(f) == value
      ensures forall g :: g != f ==> r.Get(g) == Get(g)
    {
      match f
      case Name => this.(name := value)
      case Email => this.(email := value)
      case Message => this.(message := value)
    }
  }

  const EmptyForm := FormData("", "", "")

  /** The submission status shown above the form. */
  datatype FormStatus = Idle | Success | Error

  const NameRequired := "Name is required"
  const EmailRequired := "Email is required"
  const EmailInvalid := "Email is invalid"
  const MessageRequired := "Message is required"

  /** The error a single field gets, if any. */
  function FieldError(d: FormData, f: Field): Option<string> {
    match f
    case Name => if IsBlank(d.name) then Some(NameRequired) else None
    case Email =>
      if IsBlank(d.email) then Some(EmailRequired)
      else if !HasEmailShape(d.email) then Some(EmailInvalid)
      else None
    case Message => if IsBlank(d.message) then Some(MessageRequired) else None
  }

  /** The messages an error entry may hold for field `f`; the empty string is
      what an edit leaves behind when it clears an entry. */
  predicate KnownMessage(f: Field, msg: string) {
    match f
    case Name => msg == "" || msg == NameRequired
    case Email => msg == "" || msg == EmailRequired || msg == EmailInvalid
    case Message => msg == "" || msg == MessageRequired
  }

  /** Every entry of an error map is one of its field's messages. */
  predicate WellFormedErrors(errors: map<Field, string>) {
    forall f | f in errors :: KnownMessage(f, errors[f])
  }

  /** The fresh error map of one validation pass: exactly the fields whose
      rule fails, each with its rule's message. */
  function Validate(d: FormData): (errors: map<Field, string>)
    ensures Name in errors <==> IsBlank(d.name)
    ensures Name in errors ==> errors[Name] == NameRequired
    ensures Email in errors <==> IsBlank(d.email) || !HasEmailShape(d.email)
    ensures Email in errors ==> errors[Email] == (if IsBlank(d.email) then EmailRequired else EmailInvalid)
    ensures Message in errors <==> IsBlank(d.message)
    ensures Message in errors ==> errors[Message] == MessageRequired
  {
    map f | f in AllFields && FieldError(d, f).Some? :: FieldError(d, f).value
  }

  /** Two error maps with the same entry for every field are the same map. */
  lemma SameErrors(a: map<Field, string>, b: map<Field, string>)
    requires forall f :: (f in a <==> f in b) && (f in a ==> a[f] == b[f])
    ensures a == b
  {
  }

  /** Validation only ever produces non-empty messages of the right field. */
  lemma ValidateWellFormed(d: FormData)
    ensures WellFormedErrors(Validate(d))
    ensures forall f | f in Validate(d) :: Validate(d)[f] != ""
  {
  }

  /** A form passes validation exactly when every field is filled in and the
      email has the `x@y.z` shape. */
  lemma ValidIffAcceptable(d: FormData)
    ensures |Validate(d)| == 0 <==>
      (!IsBlank(d.name) && !IsBlank(d.email) && HasEmailShape(d.email) && !IsBlank(d.message))
  {
  }

  /** A field whose text is only whitespace counts as missing. */
  lemma WhitespaceOnlyIsMissing(d: FormData, f: Field)
    requires AllWhitespace(d.Get(f))
    ensures f in Validate(d)
    ensures f == Email ==> Validate(d)[Email] == EmailRequired
  {
    BlankIffAllWhitespace(d.Get(f));
  }

  /** A field that starts with a visible character is not missing. */
  lemma StartsVisibleNotBlank(s: string)
    requires s != [] && !IsJsWhitespace(s[0])
    ensures !IsBlank(s)
  {
    BlankIffAllWhitespace(s);
  }

  /** When exactly one field fails its rule, the error map holds that one
      entry and nothing else. */
  lemma SingleFailure(d: FormData, f: Field, msg: string)
    requires FieldError(d, f) == Some(msg)
    requires forall g :: g != f ==> FieldError(d, g) == None
    ensures Validate(d) == map[f := msg]
  {
  }

  /** A missing name is the only error of this form. */
  lemma MissingNameExample(d: FormData)
    requires d == FormData("", "a@b.com", "hi")
    ensures Validate(d) == map[Name := NameRequired]
  {
    assert ShortestMatchAt(d.email, 1, 3);
    StartsVisibleNotBlank(d.email);
    StartsVisibleNotBlank(d.message);
    SingleFailure(d, Name, NameRequired);
  }

  /** An address without '@' is reported as invalid, and is the only error. */
  lemma InvalidEmailExample(d: FormData)
    requires d == FormData("A", "not-an-email", "hi")
    ensures Validate(d) == map[Email := EmailInvalid]
  {
    NoAtSignNoShape(d.email);
    StartsVisibleNotBlank(d.name);
    StartsVisibleNotBlank(d.email);
    StartsVisibleNotBlank(d.message);
    SingleFailure(d, Email, EmailInvalid);
  }

  /** A missing message is the only error of this form. */
  lemma MissingMessageExample(d: FormData)
    requires d == FormData("A", "a@b.com", "")
    ensures Validate(d) == map[Message := MessageRequired]
  {
    assert ShortestMatchAt(d.email, 1, 3);
    StartsVisibleNotBlank(d.name);
    StartsVisibleNotBlank(d.email);
    SingleFailure(d, Message, MessageRequired);
  }
}
