/** The contact form's submit handler as a decision: from the three raw field
    values, the language captured when the form was set up and the fate of the
    network request, which message is shown, with which severity, whether a
    request is issued and whether the form is reset. */
module ContactForm {
  import opened Text
  import opened Email
  import Preference

  /** The status message's style: `error` or `success`. */
  datatype Severity = Error | Success

  /** What became of the request: a response with an ok status, a response with
      any other status, or a failure to get a response at all. */
  datatype Response = Ok | NotOk | Failed

  /** The four messages the form can show. */
  datatype Notice = FillAllFields | InvalidEmail | Sent | SendFailed

  datatype Outcome = Outcome(
    notice: Notice,
    message: string,
    severity: Severity,
    sendsRequest: bool,
    resetsForm: bool)

  /** The text of each message in Portuguese and in English. The Portuguese
      "invalid email" text keeps the characters U+00C3 U+00A1 where "á" was
      meant, as the script's file stores them. */
  function Wording(n: Notice, portuguese: bool): string {
    match n
    case FillAllFields =>
      if portuguese then "Por favor, preencha todos os campos." else "Please fill in all fields."
    case InvalidEmail =>
      if portuguese then "Por favor, insira um email v\U{C3}\U{A1}lido." else "Please enter a valid email."
    case Sent =>
      if portuguese then "Mensagem enviada com sucesso! Entrarei em contato em breve."
      else "Message sent successfully! I'll contact you soon."
    case SendFailed =>
      if portuguese then "Erro ao enviar mensagem. Tente novamente." else "Error sending message. Please try again."
  }

  /** The language the form speaks: the stored preference read once at set-up. */
  function FormLanguage(storage: map<string, string>): (lang: string)
    ensures lang == "pt" <==> Preference.LanguageKey in storage && storage[Preference.LanguageKey] == "pt"
  {
    Preference.SavedLanguage(storage)
  }

  /** The message for `n` in the captured language: Portuguese only for "pt". */
  function Say(n: Notice, lang: string, severity: Severity, sends: bool, resets: bool): Outcome {
    Outcome(n, Wording(n, lang == "pt"), severity, sends, resets)
  }

  /** `handleSubmit`: trim the fields, require all three, check the e-mail's
      shape, and only then send; the response decides success or failure. */
  function HandleSubmit(name: string, email: string, message: string, lang: string, response: Response): (r: Outcome)
    // Validation order: a blank field wins over a malformed address.
    ensures IsBlank(name) || IsBlank(email) || IsBlank(message) ==> r.notice == FillAllFields
    ensures (!IsBlank(name) && !IsBlank(email) && !IsBlank(message) && !MatchesPattern(Trim(email)))
              ==> r.notice == InvalidEmail
    // A request is issued exactly when both checks pass.
    ensures r.sendsRequest <==>
              !IsBlank(name) && !IsBlank(email) && !IsBlank(message) && MatchesPattern(Trim(email))
    ensures r.sendsRequest ==> r.notice == (if response == Ok then Sent else SendFailed)
    // Only an ok response resets the form and is reported as a success.
    ensures r.resetsForm <==> r.sendsRequest && response == Ok
    ensures r.severity == Success <==> r.resetsForm
    ensures r.message == Wording(r.notice, lang == "pt")
  {
    TrimEmptyIffBlank(name);
    TrimEmptyIffBlank(email);
    TrimEmptyIffBlank(message);
    var name', email', message' := Trim(name), Trim(email), Trim(message);
    if name' == [] || email' == [] || message' == [] then
      Say(FillAllFields, lang, Error, false, false)
    else if !ValidateEmail(email') then
      Say(InvalidEmail, lang, Error, false, false)
    else if response == Ok then
      Say(Sent, lang, Success, true, true)
    else
      Say(SendFailed, lang, Error, true, false)
  }

  /** The lengths of the eight texts, all different. */
  function WordingLength(n: Notice, portuguese: bool): nat {
    match n
    case FillAllFields => if portuguese then 36 else 26
    case InvalidEmail => if portuguese then 35 else 27
    case Sent => if portuguese then 59 else 49
    case SendFailed => if portuguese then 41 else 40
  }

  lemma WordingHasLength(n: Notice, portuguese: bool)
    ensures |Wording(n, portuguese)| == WordingLength(n, portuguese)
  {
  }

  /** The shown text determines both the message and the language: no two
      messages share a wording, and no message reads the same in both languages. */
  lemma WordingIsUnambiguous(n1: Notice, pt1: bool, n2: Notice, pt2: bool)
    ensures Wording(n1, pt1) == Wording(n2, pt2) <==> n1 == n2 && pt1 == pt2
  {
    WordingHasLength(n1, pt1);
    WordingHasLength(n2, pt2);
  }

  /** A response with a bad status and a transport failure look the same to the user. */
  lemma FailuresLookAlike(name: string, email: string, message: string, lang: string)
    ensures HandleSubmit(name, email, message, lang, NotOk) == HandleSubmit(name, email, message, lang, Failed)
    ensures HandleSubmit(name, email, message, lang, Failed).severity == Error
    ensures !HandleSubmit(name, email, message, lang, Failed).resetsForm
  {
  }
}

module ContactFormScenarios {
  import opened Text
  import opened Email
  import opened ContactForm

  /** A name, address and message without white space at their ends survive trimming. */
  lemma TrimKeeps(s: string)
    requires s != [] && !IsSpace(s[0]) && !IsSpace(s[|s| - 1])
    ensures Trim(s) == s
  {
    assert TextStart(s, 0) == 0;
    assert TextEnd(s, 0, |s|) == |s|;
    assert s[0..|s|] == s;
  }

  lemma WellFormedSample()
    ensures ValidateEmail("a@b.com")
  {
    var good := "a@b.com";
    assert good[..1] == ['a'] && good[2..3] == ['b'] && good[4..] == ['c', 'o', 'm'];
    PatternSplitIsShape(good, 1, 3);
  }

  lemma MalformedSample()
    ensures !ValidateEmail("not-an-email")
  {
    var bad := "not-an-email";
    assert forall k :: 0 <= k < |bad| ==> bad[k] != '@';
    NoAtIffZeroCount(bad);
  }

  /** A blank name is reported before the address is looked at. */
  lemma BlankNameScenario(lang: string, response: Response)
    ensures HandleSubmit("", "a@b.com", "hi", lang, response).notice == FillAllFields
    ensures !HandleSubmit("", "a@b.com", "hi", lang, response).sendsRequest
  {
    assert IsBlank("");
  }

  lemma FilledFields()
    ensures !IsBlank("Ana") && !IsBlank("hi") && !IsBlank("a@b.com") && !IsBlank("not-an-email")
  {
    assert !IsSpace("Ana"[0]) && !IsSpace("hi"[0]) && !IsSpace("a@b.com"[0]) && !IsSpace("not-an-email"[0]);
  }

  lemma MalformedAddressScenario(lang: string, response: Response)
    ensures HandleSubmit("Ana", "not-an-email", "hi", lang, response).notice == InvalidEmail
  {
    FilledFields();
    TrimKeeps("not-an-email");
    MalformedSample();
  }

  lemma DeliveredScenario(lang: string)
    ensures HandleSubmit("Ana", "a@b.com", "hi", lang, Ok).notice == Sent
    ensures HandleSubmit("Ana", "a@b.com", "hi", lang, Ok).resetsForm
    ensures HandleSubmit("Ana", "a@b.com", "hi", lang, Failed).notice == SendFailed
    ensures !HandleSubmit("Ana", "a@b.com", "hi", lang, Failed).resetsForm
  {
    FilledFields();
    TrimKeeps("a@b.com");
    WellFormedSample();
  }
}
