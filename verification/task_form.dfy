/**
  The creation form: client-side validation of the two fields and the
  request it sends. The form trims with ECMAScript's notion of white space,
  the server with .NET's; `ws` is the form's notion, so the form as written
  is the instance `IsEcmaWhitespace`.
 */
module TaskForm {
  import opened Outcomes
  import opened Text
  import opened TaskDto
  import opened CreateTaskDto

  /** The one message a field can show, in priority order. */
  datatype Issue = Missing | TooShort | TooLong

  /** The `errors` object: at most one issue per field, plus the general failure message. */
  datatype FormErrors = FormErrors(title: Option<Issue>, description: Option<Issue>, general: bool)

  const NoErrors: FormErrors := FormErrors(None, None, false)

  const FormTitleMax: int := 200
  const FormDescriptionMax: int := 1000
  const FormMin: int := 3

  /**
    One field's check on its trimmed value: empty, then shorter than 3, then
    longer than `max`; the first that applies is the field's only issue.
   */
  function CheckField(ws: CodeUnit -> bool, value: Text, max: int): (issue: Option<Issue>)
    requires max >= FormMin
    ensures issue.None? <==> FormMin <= |Trim(ws, value)| <= max
    ensures issue == Some(Missing) <==> |Trim(ws, value)| == 0
    ensures issue == Some(TooShort) <==> 0 < |Trim(ws, value)| < FormMin
    ensures issue == Some(TooLong) <==> |Trim(ws, value)| > max
  {
    var trimmed := Trim(ws, value);
    if |trimmed| == 0 then Some(Missing)
    else if |trimmed| < FormMin then Some(TooShort)
    else if |trimmed| > max then Some(TooLong)
    else None
  }

  /** `validateForm`: each field is checked on its own; the general message is not set here. */
  function ValidateForm(ws: CodeUnit -> bool, title: Text, description: Text): (errors: FormErrors)
    ensures errors.title == CheckField(ws, title, FormTitleMax)
    ensures errors.description == CheckField(ws, description, FormDescriptionMax)
    ensures !errors.general
  {
    FormErrors(CheckField(ws, title, FormTitleMax), CheckField(ws, description, FormDescriptionMax), false)
  }

  /** The keys an errors object has set. */
  datatype ErrorKey = TitleKey | DescriptionKey | GeneralKey

  /** `Object.keys(errors)`: a key is present exactly when its message is set. */
  function ErrorKeys(errors: FormErrors): (keys: seq<ErrorKey>)
    ensures TitleKey in keys <==> errors.title.Some?
    ensures DescriptionKey in keys <==> errors.description.Some?
    ensures GeneralKey in keys <==> errors.general
    ensures |keys| <= 3
  {
    (if errors.title.Some? then [TitleKey] else [])
    + (if errors.description.Some? then [DescriptionKey] else [])
    + (if errors.general then [GeneralKey] else [])
  }

  /** `validateForm`'s result: the errors object has no keys, that is, no message of any kind is set. */
  function FormIsValid(errors: FormErrors): (ok: bool)
    ensures ok <==> errors.title.None? && errors.description.None? && !errors.general
  {
    |ErrorKeys(errors)| == 0
  }

  /** The form is valid exactly when both trimmed lengths are within their bounds. */
  lemma ValidIffWithinBounds(ws: CodeUnit -> bool, title: Text, description: Text)
    ensures FormIsValid(ValidateForm(ws, title, description))
        <==> FormMin <= |Trim(ws, title)| <= FormTitleMax && FormMin <= |Trim(ws, description)| <= FormDescriptionMax
  {
  }

  /** An issue with one field never hides or changes the other field's issue. */
  lemma FieldsIndependent(ws: CodeUnit -> bool, title: Text, title': Text, description: Text, description': Text)
    ensures ValidateForm(ws, title, description).title == ValidateForm(ws, title, description').title
    ensures ValidateForm(ws, title, description).description == ValidateForm(ws, title', description).description
  {
  }

  /** What the form holds: the two inputs and the errors shown. */
  datatype FormState = FormState(title: Text, description: Text, errors: FormErrors)

  const EmptyForm: FormState := FormState([], [], NoErrors)

  /** The result of a submit: the new form state, the request sent if any, and the created task handed to the page. */
  datatype Submission = Submission(state: FormState, sent: Option<CreateTaskRequest>, created: Option<TaskDto>)

  /**
    `handleSubmit`. `reply` is what the server would answer if a request
    were sent; it is consulted only when validation passes.
   */
  function HandleSubmit(ws: CodeUnit -> bool, st: FormState, reply: Call<TaskDto>): (sub: Submission)
    ensures sub.sent.Some? <==> FormIsValid(ValidateForm(ws, st.title, st.description))
    ensures sub.sent.None? ==>
      sub.created.None? && sub.state == st.(errors := ValidateForm(ws, st.title, st.description))
    ensures sub.sent.Some? ==>
      sub.sent.value == CreateTaskRequest(Some(Trim(ws, st.title)), Some(Trim(ws, st.description)))
    ensures sub.sent.Some? && reply.Returned? ==> sub.state == EmptyForm && sub.created == Some(reply.value)
    ensures sub.sent.Some? && reply.Threw? ==>
      sub.created.None? && sub.state == st.(errors := FormErrors(None, None, true))
  {
    var errors := ValidateForm(ws, st.title, st.description);
    if !FormIsValid(errors) then
      Submission(st.(errors := errors), None, None)
    else
      var payload := CreateTaskRequest(Some(Trim(ws, st.title)), Some(Trim(ws, st.description)));
      match reply
      case Returned(task) => Submission(EmptyForm, Some(payload), Some(task))
      case Threw => Submission(st.(errors := FormErrors(None, None, true)), Some(payload), None)
  }

  /** A form-trimmed value within the form's bounds passes the server's attributes for that field. */
  lemma FormFieldPassesBackend(ws: CodeUnit -> bool, value: Text, max: int)
    requires Covers(ws, IsDotNetWhitespace)
    requires FormMin <= |Trim(ws, value)| <= max
    ensures FieldAcceptable(Some(Trim(ws, value)), max)
  {
    var t := Trim(ws, value);
    TrimNarrowerAfterWider(ws, IsDotNetWhitespace, value);
    assert !IsDotNetWhitespace(t[0]);
  }

  /**
    Whatever the form sends passes the server's validation, provided every
    code unit the server trims the form trims too.
   */
  lemma SentPassesBackend(ws: CodeUnit -> bool, st: FormState, reply: Call<TaskDto>)
    requires Covers(ws, IsDotNetWhitespace)
    ensures HandleSubmit(ws, st, reply).sent.Some? ==> IsValid(HandleSubmit(ws, st, reply).sent.value)
  {
    var sub := HandleSubmit(ws, st, reply);
    if sub.sent.Some? {
      FormFieldPassesBackend(ws, st.title, FormTitleMax);
      FormFieldPassesBackend(ws, st.description, FormDescriptionMax);
      ValidIffBothAcceptable(sub.sent.value);
    }
  }

  /** ECMAScript's trim does not strip U+0085 (NEXT LINE), which .NET's does. */
  lemma EcmaMissesNextLine()
    ensures IsDotNetWhitespace(0x85) && !IsEcmaWhitespace(0x85)
    ensures !Covers(IsEcmaWhitespace, IsDotNetWhitespace)
  {
  }

  /**
    The form as written sends a title the server rejects: "ab" followed by
    U+0085 is three code units to the form and two to the server's `Trim()`.
   */
  lemma FormAcceptsWhatBackendRejects()
    ensures var st := FormState([0x61, 0x62, 0x85], [0x61, 0x62, 0x63], NoErrors);
      var sub := HandleSubmit(IsEcmaWhitespace, st, Threw);
      && sub.sent == Some(CreateTaskRequest(Some([0x61, 0x62, 0x85]), Some([0x61, 0x62, 0x63])))
      && FieldError(Title, MinimumTrimmedLength(MinTrimmedLength)) in Validate(sub.sent.value)
      && !IsValid(sub.sent.value)
  {
    TrimsOfNextLineTitle();
    TrimsOfPlainDescription();
    ShortOrBlankRejected(CreateTaskRequest(Some([0x61, 0x62, 0x85]), Some([0x61, 0x62, 0x63])));
  }

  /** "ab" followed by U+0085: the form keeps all three code units, the server keeps two. */
  lemma TrimsOfNextLineTitle()
    ensures Trim(IsEcmaWhitespace, [0x61, 0x62, 0x85]) == [0x61, 0x62, 0x85]
    ensures |Trim(IsDotNetWhitespace, [0x61, 0x62, 0x85])| == 2
  {
    var title: Text := [0x61, 0x62, 0x85];
    assert TrailingWhitespace(IsEcmaWhitespace, title) == 0;
    assert title[..2] == [0x61, 0x62];
    assert TrailingWhitespace(IsDotNetWhitespace, title) == 1;
  }

  /** "abc" has nothing to trim. */
  lemma TrimsOfPlainDescription()
    ensures Trim(IsEcmaWhitespace, [0x61, 0x62, 0x63]) == [0x61, 0x62, 0x63]
  {
    var description: Text := [0x61, 0x62, 0x63];
    assert TrailingWhitespace(IsEcmaWhitespace, description) == 0;
  }

  /**
    The corrected form trims with both platforms' white space, and then
    everything it sends passes the server's validation.
   */
  lemma CorrectedFormPassesBackend(st: FormState, reply: Call<TaskDto>)
    ensures HandleSubmit(IsDotNetOrEcmaWhitespace, st, reply).sent.Some?
            ==> IsValid(HandleSubmit(IsDotNetOrEcmaWhitespace, st, reply).sent.value)
  {
    UnionCovers();
    SentPassesBackend(IsDotNetOrEcmaWhitespace, st, reply);
  }
}
