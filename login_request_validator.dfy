/**
 * `LoginRequestValidator`: a login body needs an e-mail (trimmed) and a
 * password (taken as sent); missing ones are reported e-mail first.
 */
module LoginRequestValidator {
  import opened Strings
  import opened PhpArrays
  import opened RequestBody

  /** The validator's messages; `Text` gives the wording sent to the client. */
  datatype Message = BodyInvalid | EmailRequired | PasswordRequired

  function Text(m: Message): string {
    match m
    case BodyInvalid => BODY_INVALID
    case EmailRequired => "E-mail é obrigatório."
    case PasswordRequired => "Senha é obrigatória."
  }

  /** The answer: `valid` with the credentials, or not with `errors`. */
  datatype LoginValidation = Valid(email: string, password: string) | Invalid(errors: seq<Message>)

  /** The e-mail: the field, trimmed. */
  function EmailOf(data: OMap<string, JsonValue>): string {
    Trim(FieldText(data, "email"))
  }

  /** The password: the field as sent, not trimmed. */
  function PasswordOf(data: OMap<string, JsonValue>): string {
    FieldText(data, "password")
  }

  /** What `validate` answers. */
  function ValidationOf(body: Body): LoginValidation {
    match body
    case NotAnArray => Invalid([BodyInvalid])
    case Fields(data) =>
      var email, password := EmailOf(data), PasswordOf(data);
      var errors := (if email == "" then [EmailRequired] else []) + (if password == "" then [PasswordRequired] else []);
      if errors != [] then Invalid(errors) else Valid(email, password)
  }

  /** `validate`. */
  method Validate(body: Body) returns (v: LoginValidation)
    ensures v == ValidationOf(body)
  {
    if !body.Fields? {
      return Invalid([BodyInvalid]);
    }
    var data := body.fields;
    var email := if IsSet(data, "email") then Trim(StringCast(Get(data, "email").value)) else "";
    var password := if IsSet(data, "password") then StringCast(Get(data, "password").value) else "";
    assert email == EmailOf(data) && password == PasswordOf(data);

    var errors: seq<Message> := [];
    if email == "" {
      errors := errors + [EmailRequired];
    }
    if password == "" {
      errors := errors + [PasswordRequired];
    }
    assert errors == (if email == "" then [EmailRequired] else []) + (if password == "" then [PasswordRequired] else []);
    if errors != [] {
      return Invalid(errors);
    }
    return Valid(email, password);
  }

  /**
   * A body that is not an array gets exactly one error. Otherwise there are
   * at most two errors, the e-mail one first; the answer is valid exactly
   * when both fields are non-empty, and then carries the trimmed e-mail and
   * the password as sent.
   */
  lemma LoginOutcome(body: Body)
    ensures body.NotAnArray? ==> ValidationOf(body) == Invalid([BodyInvalid])
    ensures body.Fields? ==>
              var email, password := EmailOf(body.fields), PasswordOf(body.fields);
              (ValidationOf(body).Valid? <==> email != "" && password != "") &&
              (ValidationOf(body).Valid? ==>
                 ValidationOf(body).email == email && Trim(email) == email &&
                 ValidationOf(body).password == FieldText(body.fields, "password")) &&
              (ValidationOf(body).Invalid? ==>
                 var es := ValidationOf(body).errors;
                 1 <= |es| <= 2 &&
                 (es[0] == EmailRequired <==> email == "") &&
                 (PasswordRequired in es <==> password == "") &&
                 (PasswordRequired in es ==> es[|es| - 1] == PasswordRequired))
  {
    if body.Fields? {
      var email, password := EmailOf(body.fields), PasswordOf(body.fields);
      var errors := (if email == "" then [EmailRequired] else []) + (if password == "" then [PasswordRequired] else []);
      assert ValidationOf(body) == if errors != [] then Invalid(errors) else Valid(email, password);
      TrimIdempotent(FieldText(body.fields, "email"));
    }
  }
}
