/** The upload client (`src/utils/fileUpload.js`, `uploadToMakeWebhook`).

    The client checks that every field of the form is present, builds a
    multipart body by appending four parts to a `FormData` object, sends one
    POST to a fixed webhook URL and turns the server's answer into a result or
    an error message. The network is not modelled: the server's answer is a
    `Response` value passed in by the caller, and the request the client would
    send is returned so that its target and body can be stated. */
module FileUpload {
  import opened Common

  /** The form record handed to the client as its `formData` argument (a plain
      object, not a browser `FormData`): the three text fields and the selected
      file (`null` until one is accepted). */
  datatype FormRecord = FormRecord(name: string, surname: string, email: string, file: Option<File>)

  /** The value of one multipart part: a text field or a binary blob. */
  datatype PartValue = Text(text: string) | Blob(blob: File)

  datatype Part = Part(key: string, value: PartValue)

  /** The one request the client sends. */
  datatype Request = Request(url: string, httpMethod: string, body: seq<Part>)

  /** What came back from `fetch`: a response whose `ok` flag is set, one whose
      flag is clear (with its status and body text), or a rejection of `fetch`
      itself with the message of its error. */
  datatype Response =
    | Ok(body: string)
    | NotOk(status: nat, body: string)
    | NetworkError(message: string)

  /** The value the client resolves with. */
  datatype UploadResult = UploadResult(success: bool, message: string)

  const WebhookUrl: string := "https://hook.eu2.make.com/cfhuapql1sqjdtl6alviiihhgcnkbeg3"
  const MissingDataMessage: string := "Missing required form data"
  const FallbackMessage: string := "Failed to upload file. Please try again."
  const SuccessMessage: string := "Upload successful"

  /** The `FormData` object the body is built in: an ordered list of parts
      that `append` extends. */
  class MultipartBody {
    var parts: seq<Part>

    constructor ()
      ensures parts == []
    {
      parts := [];
    }

    method Append(key: string, value: PartValue)
      modifies this
      ensures parts == old(parts) + [Part(key, value)]
    {
      parts := parts + [Part(key, value)];
    }
  }

  /** The guard before anything is built: every field must be truthy, so
      the empty string and a missing file both fail it. */
  predicate HasRequiredData(d: FormRecord)
  {
    d.file.Some? && d.name != "" && d.surname != "" && d.email != ""
  }

  function DigitChar(d: nat): char
    requires d < 10
  {
    ('0' as int + d) as char
  }

  predicate IsDigit(c: char)
  {
    '0' <= c <= '9'
  }

  /** The decimal rendering of a number in a template literal. */
  function DecimalString(n: nat): (r: string)
    ensures r != [] && forall i :: 0 <= i < |r| ==> IsDigit(r[i])
    ensures r[0] == '0' ==> n == 0
    decreases n
  {
    if n < 10 then [DigitChar(n)] else DecimalString(n / 10) + [DigitChar(n % 10)]
  }

  /** Reads a string of decimal digits back as a number. */
  function DecimalValue(s: string): nat
    requires forall i :: 0 <= i < |s| ==> IsDigit(s[i])
    decreases |s|
  {
    if s == [] then 0
    else
      assert IsDigit(s[|s| - 1]);
      DecimalValue(s[..|s| - 1]) * 10 + (s[|s| - 1] as int - '0' as int)
  }

  lemma {:induction false} DecimalRoundTrip(n: nat)
    ensures DecimalValue(DecimalString(n)) == n
    decreases n
  {
    if n >= 10 {
      DecimalRoundTrip(n / 10);
      var s := DecimalString(n);
      assert s[..|s| - 1] == DecimalString(n / 10);
    }
  }

  /** The message of the error thrown for a response whose `ok` flag is clear. */
  function ServerErrorMessage(status: nat, body: string): string
  {
    "Server responded with " + DecimalString(status) + ": " + body
  }

  /** The `catch` block rethrows with the caught message, or with the fallback
      message when that one is empty. */
  function Rethrown(message: string): (r: string)
    ensures r != ""
    ensures message != "" ==> r == message
    ensures message == "" ==> r == FallbackMessage
  {
    if message != "" then message else FallbackMessage
  }

  /** How the answer to the request becomes the client's outcome. */
  function ResponseOutcome(response: Response): (r: Result<UploadResult>)
    ensures r.Success? <==> response.Ok?
    ensures r.Success? ==> r.value == UploadResult(true, SuccessMessage)
    ensures r.Failure? ==> r.error != ""
    ensures response.NotOk? ==> r.error == ServerErrorMessage(response.status, response.body)
    ensures response.NetworkError? && response.message != "" ==> r.error == response.message
    ensures response.NetworkError? && response.message == "" ==> r.error == FallbackMessage
  {
    match response
    case Ok(_) => Success(UploadResult(true, SuccessMessage))
    case NotOk(status, body) => Failure(Rethrown(ServerErrorMessage(status, body)))
    case NetworkError(message) => Failure(Rethrown(message))
  }

  /** uploadToMakeWebhook. With the required data missing it throws before
      building or sending anything; otherwise it builds the body of four parts,
      sends exactly one POST to the webhook URL, and returns the outcome of the
      server's answer. */
  method UploadToWebhook(formData: FormRecord, response: Response)
    returns (result: Result<UploadResult>, sent: Option<Request>)
    ensures sent.Some? <==> HasRequiredData(formData)
    ensures !HasRequiredData(formData) ==> result == Failure(MissingDataMessage)
    ensures sent.Some? ==> sent.value.url == WebhookUrl && sent.value.httpMethod == "POST"
    ensures sent.Some? ==> sent.value.body == [
      Part("name", Text(formData.name)),
      Part("surname", Text(formData.surname)),
      Part("email", Text(formData.email)),
      Part("file", Blob(formData.file.value))]
    ensures HasRequiredData(formData) ==> result == ResponseOutcome(response)
  {
    if !HasRequiredData(formData) {
      return Failure(MissingDataMessage), None;
    }
    var data := new MultipartBody();
    data.Append("name", Text(formData.name));
    data.Append("surname", Text(formData.surname));
    data.Append("email", Text(formData.email));
    data.Append("file", Blob(formData.file.value));
    sent := Some(Request(WebhookUrl, "POST", data.parts));
    result := ResponseOutcome(response);
  }

  /** Where the rendered status ends in a server error message: its digits
      are followed by the ':' of the separator. */
  lemma StatusThenColon(status: nat, body: string)
    ensures var m, p := ServerErrorMessage(status, body), |"Server responded with "|;
      var d := DecimalString(status);
      m[p + |d|] == ':' && m[p..p + |d|] == d && m[p + |d| + 2..] == body
  {
  }

  /** The status and body of a server error can be read back from its message:
      two different answers never produce the same message. */
  lemma ServerErrorMessageInjective(s1: nat, b1: string, s2: nat, b2: string)
    requires ServerErrorMessage(s1, b1) == ServerErrorMessage(s2, b2)
    ensures s1 == s2 && b1 == b2
  {
    var m, p := ServerErrorMessage(s1, b1), |"Server responded with "|;
    var d1, d2 := DecimalString(s1), DecimalString(s2);
    StatusThenColon(s1, b1);
    StatusThenColon(s2, b2);
    // the ':' after the shorter rendering cannot be a digit of the longer one
    assert |d1| == |d2|;
    assert d1 == d2;
    DecimalRoundTrip(s1);
    DecimalRoundTrip(s2);
  }

  /** The outcomes for a 500 answer with the body "boom", a 404 answer with an
      empty body, a network error with an empty message, and an ok answer. */
  lemma ResponseExamples()
    ensures ResponseOutcome(NotOk(500, "boom")) == Failure("Server responded with 500: boom")
    ensures ResponseOutcome(NotOk(404, "")) == Failure("Server responded with 404: ")
    ensures ResponseOutcome(NetworkError("")) == Failure("Failed to upload file. Please try again.")
    ensures ResponseOutcome(Ok("anything")) == Success(UploadResult(true, "Upload successful"))
  {
    assert DecimalString(500) == "500";
    assert DecimalString(404) == "404";
  }
}
