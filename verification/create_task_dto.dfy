/**
  The body of a create request and the validation attributes on its two
  properties, as ASP.NET Core model validation applies them before the
  controller action runs: every attribute on a property is evaluated, each
  failing one adds one error, and the model state is valid when none fails.
 */
module CreateTaskDto {
  import opened Outcomes
  import opened Text

  /** The JSON body `{ title, description }`; either property may be `null`. */
  datatype CreateTaskRequest = CreateTaskRequest(title: Option<Text>, description: Option<Text>)

  /** What `ValidationAttribute.IsValid(object? value)` may be handed. */
  datatype AttrValue = Null | Str(s: Text) | NonString

  /** The validation attributes the two properties carry. */
  datatype Attribute = Required | StringLength(maximumLength: int) | MinimumTrimmedLength(minimumLength: int)

  datatype Field = Title | Description

  /** One model-state error: which property, and which attribute rejected it. */
  datatype FieldError = FieldError(field: Field, attribute: Attribute)

  const TitleMaxLength: int := 200
  const DescriptionMaxLength: int := 1000
  const MinTrimmedLength: int := 3

  /** The attributes on `Title` and on `Description`, in declaration order. */
  const TitleRules: seq<Attribute> :=
    [Required, StringLength(TitleMaxLength), MinimumTrimmedLength(MinTrimmedLength)]
  const DescriptionRules: seq<Attribute> :=
    [Required, StringLength(DescriptionMaxLength), MinimumTrimmedLength(MinTrimmedLength)]

  function AsValue(v: Option<Text>): AttrValue
  {
    match v
    case None => Null
    case Some(s) => Str(s)
  }

  /**
    `MinimumTrimmedLengthAttribute.IsValid`: a string is valid when its
    `Trim()` has at least `minimumLength` code units; `null` and anything
    that is not a string are invalid.
   */
  function MinimumTrimmedLengthIsValid(minimumLength: int, value: AttrValue): (ok: bool)
    ensures ok <==> value.Str? && |Trim(IsDotNetWhitespace, value.s)| >= minimumLength
    ensures ok && minimumLength > 0 ==> !AllWhitespace(IsDotNetWhitespace, value.s)
  {
    if value.Str? then
      TrimEmptyIffAllWhitespace(IsDotNetWhitespace, value.s);
      |Trim(IsDotNetWhitespace, value.s)| >= minimumLength
    else false
  }

  /**
    One attribute applied to a string property. `Required` (empty strings not
    allowed) rejects `null` and `string.IsNullOrWhiteSpace`; `StringLength`
    accepts `null` and otherwise bounds the raw, untrimmed length.
   */
  function AttributeIsValid(a: Attribute, v: Option<Text>): (ok: bool)
    ensures a.Required? ==> (ok <==> v.Some? && |Trim(IsDotNetWhitespace, v.value)| > 0)
    ensures a.StringLength? ==> (ok <==> v.None? || |v.value| <= a.maximumLength)
    ensures a.MinimumTrimmedLength? ==> (ok <==> v.Some? && |Trim(IsDotNetWhitespace, v.value)| >= a.minimumLength)
  {
    match a
    case Required =>
      if v.Some? then
        TrimEmptyIffAllWhitespace(IsDotNetWhitespace, v.value);
        !AllWhitespace(IsDotNetWhitespace, v.value)
      else false
    case StringLength(max) => v.None? || |v.value| <= max
    case MinimumTrimmedLength(min) => MinimumTrimmedLengthIsValid(min, AsValue(v))
  }

  /** The attributes in `rules` that reject `v`, in order. */
  function Failing(rules: seq<Attribute>, v: Option<Text>): (r: seq<Attribute>)
    ensures forall a :: a in r <==> a in rules && !AttributeIsValid(a, v)
    ensures |r| <= |rules|
  {
    if |rules| == 0 then []
    else if AttributeIsValid(rules[0], v) then Failing(rules[1..], v)
    else [rules[0]] + Failing(rules[1..], v)
  }

  function ErrorsFor(field: Field, failing: seq<Attribute>): (r: seq<FieldError>)
    ensures |r| == |failing|
    ensures forall i :: 0 <= i < |r| ==> r[i] == FieldError(field, failing[i])
  {
    if |failing| == 0 then [] else [FieldError(field, failing[0])] + ErrorsFor(field, failing[1..])
  }

  /** The model-state errors of a request: title errors, then description errors. */
  function Validate(req: CreateTaskRequest): (errors: seq<FieldError>)
    ensures forall e :: e in errors <==>
      (e.field == Title && e.attribute in TitleRules && !AttributeIsValid(e.attribute, req.title))
      || (e.field == Description && e.attribute in DescriptionRules && !AttributeIsValid(e.attribute, req.description))
  {
    var t := Failing(TitleRules, req.title);
    var d := Failing(DescriptionRules, req.description);
    var r := ErrorsFor(Title, t) + ErrorsFor(Description, d);
    assert forall e :: e in ErrorsFor(Title, t) <==> e.field == Title && e.attribute in t;
    assert forall e :: e in ErrorsFor(Description, d) <==> e.field == Description && e.attribute in d;
    r
  }

  /** `ModelState.IsValid`: no error was recorded, that is, every attribute of both properties accepts its value. */
  function IsValid(req: CreateTaskRequest): (ok: bool)
    ensures ok <==>
      && (forall a :: a in TitleRules ==> AttributeIsValid(a, req.title))
      && (forall a :: a in DescriptionRules ==> AttributeIsValid(a, req.description))
  {
    var errors := Validate(req);
    assert |errors| > 0 ==> errors[0] in errors;
    |errors| == 0
  }

  /** The three conditions a field must meet, stated directly. */
  predicate FieldAcceptable(v: Option<Text>, maxLength: int)
  {
    && v.Some?
    && !AllWhitespace(IsDotNetWhitespace, v.value)
    && |v.value| <= maxLength
    && |Trim(IsDotNetWhitespace, v.value)| >= MinTrimmedLength
  }

  /** Three attributes `Required`, `StringLength(max)`, `MinimumTrimmedLength(3)` all accept `v` exactly when the field is acceptable. */
  lemma RulesAcceptance(max: int, v: Option<Text>)
    ensures |Failing([Required, StringLength(max), MinimumTrimmedLength(MinTrimmedLength)], v)| == 0
            <==> FieldAcceptable(v, max)
  {
    var rules := [Required, StringLength(max), MinimumTrimmedLength(MinTrimmedLength)];
    var f := Failing(rules, v);
    if |f| > 0 {
      assert f[0] in f;
    } else {
      assert rules[0] in rules && rules[1] in rules && rules[2] in rules;
    }
  }

  /** A title is accepted exactly when it is present, not blank, at most 200 raw code units, and at least 3 once trimmed. */
  lemma TitleAcceptance(v: Option<Text>)
    ensures |Failing(TitleRules, v)| == 0 <==> FieldAcceptable(v, TitleMaxLength)
  {
    RulesAcceptance(TitleMaxLength, v);
  }

  /** A description is accepted exactly when the same holds with a raw cap of 1000. */
  lemma DescriptionAcceptance(v: Option<Text>)
    ensures |Failing(DescriptionRules, v)| == 0 <==> FieldAcceptable(v, DescriptionMaxLength)
  {
    RulesAcceptance(DescriptionMaxLength, v);
  }

  /** The model state is valid exactly when both fields are acceptable. */
  lemma ValidIffBothAcceptable(req: CreateTaskRequest)
    ensures IsValid(req) <==> FieldAcceptable(req.title, TitleMaxLength) && FieldAcceptable(req.description, DescriptionMaxLength)
  {
    TitleAcceptance(req.title);
    DescriptionAcceptance(req.description);
    var t := Failing(TitleRules, req.title);
    var d := Failing(DescriptionRules, req.description);
    assert |Validate(req)| == |ErrorsFor(Title, t)| + |ErrorsFor(Description, d)|;
  }

  /** A blank field, or one shorter than 3 once trimmed, is rejected by `MinimumTrimmedLength`, for both fields. */
  lemma ShortOrBlankRejected(req: CreateTaskRequest)
    ensures req.title.Some? && |Trim(IsDotNetWhitespace, req.title.value)| < MinTrimmedLength
            ==> FieldError(Title, MinimumTrimmedLength(MinTrimmedLength)) in Validate(req)
    ensures req.description.Some? && |Trim(IsDotNetWhitespace, req.description.value)| < MinTrimmedLength
            ==> FieldError(Description, MinimumTrimmedLength(MinTrimmedLength)) in Validate(req)
  {
    var rule := MinimumTrimmedLength(MinTrimmedLength);
    assert TitleRules[2] == rule && DescriptionRules[2] == rule;
    var errors := Validate(req);
    assert FieldError(Title, rule) in errors <==> !AttributeIsValid(rule, req.title);
    assert FieldError(Description, rule) in errors <==> !AttributeIsValid(rule, req.description);
  }

  /**
    The upper bound is on the raw string: 198 letters followed by three
    spaces are rejected as a title although only 198 remain after trimming.
   */
  lemma PaddedTitleRejected()
    ensures var s := seq(198, _ => 0x61 as CodeUnit) + [0x20, 0x20, 0x20];
      && |Trim(IsDotNetWhitespace, s)| == 198
      && FieldError(Title, StringLength(200)) in Validate(CreateTaskRequest(Some(s), Some(s)))
  {
    var letters := seq(198, _ => 0x61 as CodeUnit);
    var s := letters + [0x20, 0x20, 0x20];
    assert s[0] == 0x61;
    assert LeadingWhitespace(IsDotNetWhitespace, s) == 0;
    assert s[..200] == letters + [0x20, 0x20];
    assert s[..200][..199] == letters + [0x20];
    assert s[..200][..199][..198] == letters;
    assert TrailingWhitespace(IsDotNetWhitespace, letters) == 0 by {
      assert letters[197] == 0x61;
    }
    assert TrailingWhitespace(IsDotNetWhitespace, s[..200][..199]) == 1;
    assert TrailingWhitespace(IsDotNetWhitespace, s[..200]) == 2;
    assert TrailingWhitespace(IsDotNetWhitespace, s) == 3;
    assert StringLength(200) in TitleRules;
  }
}
