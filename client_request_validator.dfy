/**
 * `ClientRequestValidator`: checks the body of a create or update request
 * field by field, in the order name, phone, type, document, appending at
 * most one message per field to a shared error list.
 */
module ClientRequestValidator {
  import opened Wrappers
  import opened Strings
  import opened PhpArrays
  import opened RequestBody

  const TYPE_PF: string := "PF"
  const TYPE_PJ: string := "PJ"
  const PHONE_DIGITS_MIN: nat := 10
  const PHONE_DIGITS_MAX: nat := 11
  const CPF_DIGITS: nat := 11
  const CNPJ_DIGITS: nat := 14

  /** The validator's messages; `Text` gives the wording sent to the client. */
  datatype Message =
    | BodyInvalid
    | NameRequired
    | PhoneRequired
    | PhoneLength
    | TypeInvalid
    | DocumentRequired
    | CpfLength
    | CnpjLength

  function Text(m: Message): string {
    match m
    case BodyInvalid => BODY_INVALID
    case NameRequired => "Nome é obrigatório."
    case PhoneRequired => "Telefone é obrigatório."
    case PhoneLength => "Telefone deve conter 10 ou 11 dígitos."
    case TypeInvalid => "Tipo deve ser PF ou PJ."
    case DocumentRequired => "Documento (CPF/CNPJ) é obrigatório."
    case CpfLength => "CPF deve conter 11 dígitos."
    case CnpjLength => "CNPJ deve conter 14 dígitos."
  }

  /** The normalised fields of a valid request. */
  datatype ClientData = ClientData(name: string, phone: string, clientType: string, document: string)

  /** The validator's answer: `valid` with `data`, or not with `errors`. */
  datatype Validation = Valid(data: ClientData) | Invalid(errors: seq<Message>)

  // ------------------------------------------------------------ normalisation

  /** The name: the field, trimmed. */
  function NameOf(data: OMap<string, JsonValue>): string {
    Trim(FieldText(data, "name"))
  }

  /** The phone: the digits of the trimmed field. */
  function PhoneOf(data: OMap<string, JsonValue>): string {
    DigitsOnly(Trim(FieldText(data, "phone")))
  }

  /** The type: the field, trimmed and upper-cased. */
  function TypeOf(data: OMap<string, JsonValue>): string {
    ToUpper(Trim(FieldText(data, "type")))
  }

  /** The document: the digits of the field. */
  function DocumentOf(data: OMap<string, JsonValue>): string {
    DigitsOnly(FieldText(data, "document"))
  }

  // ------------------------------------------------------------ the checks

  /** The list of the message, if any. */
  function Messages(m: Option<Message>): (ms: seq<Message>)
    ensures |ms| <= 1
    ensures m.None? <==> ms == []
  {
    if m.Some? then [m.value] else []
  }

  function NameError(name: string): (e: Option<Message>)
    ensures e.Some? <==> name == ""
    ensures e.Some? ==> e.value == NameRequired
  {
    if name == "" then Some(NameRequired) else None
  }

  function PhoneError(phone: string): (e: Option<Message>)
    ensures e.None? <==> PHONE_DIGITS_MIN <= |phone| <= PHONE_DIGITS_MAX
    ensures e == Some(PhoneRequired) <==> phone == ""
  {
    if phone == "" then Some(PhoneRequired)
    else if |phone| < PHONE_DIGITS_MIN || |phone| > PHONE_DIGITS_MAX then Some(PhoneLength)
    else None
  }

  function TypeError(clientType: string): (e: Option<Message>)
    ensures e.None? <==> clientType == TYPE_PF || clientType == TYPE_PJ
    ensures e.Some? ==> e.value == TypeInvalid
  {
    if clientType != TYPE_PF && clientType != TYPE_PJ then Some(TypeInvalid) else None
  }

  /** The document check; it depends on the normalised type, whether or not that was valid. */
  function DocumentError(document: string, clientType: string): (e: Option<Message>)
    ensures document == "" ==> e == Some(DocumentRequired)
    ensures document != "" && clientType == TYPE_PF ==> (e.None? <==> |document| == CPF_DIGITS)
    ensures document != "" && clientType == TYPE_PJ ==> (e.None? <==> |document| == CNPJ_DIGITS)
    ensures document != "" && clientType != TYPE_PF && clientType != TYPE_PJ ==> e.None?
    ensures e.Some? ==> e.value in [DocumentRequired, CpfLength, CnpjLength]
  {
    if document == "" then Some(DocumentRequired)
    else if clientType == TYPE_PF && |document| != CPF_DIGITS then Some(CpfLength)
    else if clientType == TYPE_PJ && |document| != CNPJ_DIGITS then Some(CnpjLength)
    else None
  }

  /** The errors for the normalised fields, in field order. */
  function ErrorList(name: string, phone: string, clientType: string, document: string): seq<Message> {
    Messages(NameError(name)) + Messages(PhoneError(phone)) +
      Messages(TypeError(clientType)) + Messages(DocumentError(document, clientType))
  }

  /** The answer for the normalised fields. */
  function Outcome(name: string, phone: string, clientType: string, document: string): Validation {
    var errors := ErrorList(name, phone, clientType, document);
    if errors != [] then Invalid(errors) else Valid(ClientData(name, phone, clientType, document))
  }

  /** What `validate` answers for a body array. */
  function ValidationOf(data: OMap<string, JsonValue>): Validation {
    Outcome(NameOf(data), PhoneOf(data), TypeOf(data), DocumentOf(data))
  }

  // ------------------------------------------------------------ the methods

  /** `validateName`: appends to `errors` and returns the name. */
  method ValidateName(data: OMap<string, JsonValue>, errors: seq<Message>) returns (name: string, errors': seq<Message>)
    ensures name == NameOf(data)
    ensures errors' == errors + Messages(NameError(name))
  {
    name := if IsSet(data, "name") then Trim(StringCast(Get(data, "name").value)) else "";
    errors' := errors;
    if name == "" {
      errors' := errors' + [NameRequired];
    }
  }

  /** `validatePhone`. */
  method ValidatePhone(data: OMap<string, JsonValue>, errors: seq<Message>) returns (phone: string, errors': seq<Message>)
    ensures phone == PhoneOf(data)
    ensures errors' == errors + Messages(PhoneError(phone))
  {
    var raw := if IsSet(data, "phone") then Trim(StringCast(Get(data, "phone").value)) else "";
    phone := DigitsOnly(raw);
    errors' := errors;
    if phone == "" {
      errors' := errors' + [PhoneRequired];
    } else if |phone| < PHONE_DIGITS_MIN || |phone| > PHONE_DIGITS_MAX {
      errors' := errors' + [PhoneLength];
    }
  }

  /** `validateType`. */
  method ValidateType(data: OMap<string, JsonValue>, errors: seq<Message>) returns (clientType: string, errors': seq<Message>)
    ensures clientType == TypeOf(data)
    ensures errors' == errors + Messages(TypeError(clientType))
  {
    clientType := if IsSet(data, "type") then ToUpper(Trim(StringCast(Get(data, "type").value))) else "";
    assert !IsSet(data, "type") ==> ToUpper(Trim("")) == "";
    errors' := errors;
    if clientType != TYPE_PF && clientType != TYPE_PJ {
      errors' := errors' + [TypeInvalid];
    }
  }

  /** `validateDocument`. */
  method ValidateDocument(data: OMap<string, JsonValue>, clientType: string, errors: seq<Message>)
    returns (document: string, errors': seq<Message>)
    ensures document == DocumentOf(data)
    ensures errors' == errors + Messages(DocumentError(document, clientType))
  {
    document := if IsSet(data, "document") then DigitsOnly(StringCast(Get(data, "document").value)) else "";
    errors' := errors;
    if document == "" {
      errors' := errors' + [DocumentRequired];
    } else if clientType == TYPE_PF && |document| != CPF_DIGITS {
      errors' := errors' + [CpfLength];
    } else if clientType == TYPE_PJ && |document| != CNPJ_DIGITS {
      errors' := errors' + [CnpjLength];
    }
  }

  /** `validate`. */
  method Validate(data: OMap<string, JsonValue>) returns (v: Validation)
    ensures v == ValidationOf(data)
  {
    var errors: seq<Message> := [];
    var name, phone, clientType, document;
    name, errors := ValidateName(data, errors);
    assert errors == Messages(NameError(name));
    phone, errors := ValidatePhone(data, errors);
    clientType, errors := ValidateType(data, errors);
    document, errors := ValidateDocument(data, clientType, errors);
    assert errors == ErrorList(name, phone, clientType, document);
    if errors != [] {
      return Invalid(errors);
    }
    return Valid(ClientData(name, phone, clientType, document));
  }

  /** `validateCreate`. */
  method ValidateCreate(body: Body) returns (v: Validation)
    ensures body.NotAnArray? ==> v == Invalid([BodyInvalid])
    ensures body.Fields? ==> v == ValidationOf(body.fields)
  {
    if !body.Fields? {
      return Invalid([BodyInvalid]);
    }
    v := Validate(body.fields);
  }

  /** `validateUpdate`: the same validation as `validateCreate`. */
  method ValidateUpdate(body: Body) returns (v: Validation)
    ensures body.NotAnArray? ==> v == Invalid([BodyInvalid])
    ensures body.Fields? ==> v == ValidationOf(body.fields)
  {
    v := ValidateCreate(body);
  }

  // ------------------------------------------------------------ properties

  /** The field a message belongs to: 0 name, 1 phone, 2 type, 3 document. */
  function FieldOf(m: Message): nat {
    match m
    case NameRequired => 0
    case PhoneRequired | PhoneLength => 1
    case TypeInvalid => 2
    case _ => 3
  }

  /**
   * The answer is valid exactly when every field check passes; otherwise
   * its errors follow the field order, at most one per field.
   */
  lemma ErrorsInFieldOrder(name: string, phone: string, clientType: string, document: string)
    ensures Outcome(name, phone, clientType, document).Valid? <==>
              NameError(name).None? && PhoneError(phone).None? &&
              TypeError(clientType).None? && DocumentError(document, clientType).None?
    ensures Outcome(name, phone, clientType, document).Invalid? ==>
              var es := Outcome(name, phone, clientType, document).errors;
              1 <= |es| <= 4 && forall i, j :: 0 <= i < j < |es| ==> FieldOf(es[i]) < FieldOf(es[j])
  {
    MessagesInFieldOrder(NameError(name), PhoneError(phone), TypeError(clientType), DocumentError(document, clientType));
  }

  /** One optional message per field, concatenated in field order, are in strictly increasing field order. */
  lemma MessagesInFieldOrder(n: Option<Message>, p: Option<Message>, t: Option<Message>, c: Option<Message>)
    requires n.Some? ==> FieldOf(n.value) == 0
    requires p.Some? ==> FieldOf(p.value) == 1
    requires t.Some? ==> FieldOf(t.value) == 2
    requires c.Some? ==> FieldOf(c.value) == 3
    ensures var es := Messages(n) + Messages(p) + Messages(t) + Messages(c);
            |es| <= 4 && forall i, j :: 0 <= i < j < |es| ==> FieldOf(es[i]) < FieldOf(es[j])
  {
    var ms := [Messages(n), Messages(p), Messages(t), Messages(c)];
    var es := ms[0] + ms[1] + ms[2] + ms[3];
    forall k, m | 0 <= k < 4 && m in ms[k] ensures FieldOf(m) == k {
    }
    forall i, j | 0 <= i < j < |es| ensures FieldOf(es[i]) < FieldOf(es[j]) {
      var a := |ms[0]|;
      var b := a + |ms[1]|;
      var e := b + |ms[2]|;
      var fi := if i < a then 0 else if i < b then 1 else if i < e then 2 else 3;
      var fj := if j < a then 0 else if j < b then 1 else if j < e then 2 else 3;
      assert es[i] in ms[fi];
      assert es[j] in ms[fj];
    }
  }

  /**
   * A valid answer carries a non-empty trimmed name, a phone of 10 or 11
   * digits, type `PF` or `PJ`, and a document of 11 digits for `PF` and 14
   * for `PJ`.
   */
  lemma ValidData(data: OMap<string, JsonValue>)
    requires ValidationOf(data).Valid?
    ensures var d := ValidationOf(data).data;
            d.name != "" && Trim(d.name) == d.name &&
            AllDigits(d.phone) && PHONE_DIGITS_MIN <= |d.phone| <= PHONE_DIGITS_MAX &&
            (d.clientType == TYPE_PF || d.clientType == TYPE_PJ) &&
            AllDigits(d.document) &&
            (d.clientType == TYPE_PF ==> |d.document| == CPF_DIGITS) &&
            (d.clientType == TYPE_PJ ==> |d.document| == CNPJ_DIGITS)
  {
    var name, phone, clientType, document := NameOf(data), PhoneOf(data), TypeOf(data), DocumentOf(data);
    ErrorsInFieldOrder(name, phone, clientType, document);
    assert ValidationOf(data).data == ClientData(name, phone, clientType, document);
    assert NameError(name).None? && PhoneError(phone).None? &&
           TypeError(clientType).None? && DocumentError(document, clientType).None?;
    TrimIdempotent(FieldText(data, "name"));
  }

  /** A type that is neither `PF` nor `PJ` leaves only the emptiness check on the document. */
  lemma InvalidTypeChecksOnlyEmptiness(name: string, phone: string, clientType: string, document: string)
    requires clientType != TYPE_PF && clientType != TYPE_PJ
    ensures var es := ErrorList(name, phone, clientType, document);
            es[|es| - 1] == if document == "" then DocumentRequired else TypeInvalid
  {
  }
}
