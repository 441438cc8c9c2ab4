/** The form controller (`src/components/UploadForm.jsx`).

    The component keeps the form record (`formData`) and the per-field error
    messages (`errors`); the flag `isUploading` and the banner `uploadStatus`
    belong to the enclosing `App` and reach the form as setters, so here they
    are fields of the same object. Every handler is one atomic update of that
    state; the answer of the webhook is an input of `HandleSubmit`. */
module Form {
  import opened Common
  import opened Validation
  import opened FileUpload

  /** The keys of the `errors` record (and of the form's inputs). */
  datatype Field = NameField | SurnameField | EmailField | FileField

  /** The banner shown by `App` after a submission. */
  datatype UploadStatus = UploadStatus(error: bool, message: string)

  /** 100 MiB, the largest file the form admits. */
  const MaxFileSize: nat := 100 * 1024 * 1024
  const RequiredType: string := "video/mp4"

  const NoFileMessage: string := "Please select a file"
  const WrongTypeMessage: string := "Only MP4 files are allowed"
  const TooLargeMessage: string := "File size should be less than 100MB"
  const UploadedStatusMessage: string := "File uploaded successfully!"
  const FailedStatusPrefix: string := "Upload failed: "

  /** The form record right after mounting and after a successful upload. */
  const EmptyForm: FormRecord := FormRecord("", "", "", None)

  /** The value of a text input in the form record. */
  function TextOf(d: FormRecord, f: Field): string
    requires f != FileField
  {
    match f
    case NameField => d.name
    case SurnameField => d.surname
    case EmailField => d.email
  }

  /** `{...formData, [name]: value}` for a text input. */
  function WithText(d: FormRecord, f: Field, value: string): (r: FormRecord)
    requires f != FileField
    ensures TextOf(r, f) == value && r.file == d.file
    ensures forall g :: g != FileField && g != f ==> TextOf(r, g) == TextOf(d, g)
  {
    match f
    case NameField => d.(name := value)
    case SurnameField => d.(surname := value)
    case EmailField => d.(email := value)
  }

  /** A file the selection handler lets into the form record. */
  predicate Admissible(f: File)
  {
    f.mimeType == RequiredType && f.Size() <= MaxFileSize
  }

  /** The check `validateForm` makes of one field. */
  predicate Passes(d: FormRecord, f: Field)
  {
    match f
    case NameField => ValidateName(d.name)
    case SurnameField => ValidateName(d.surname)
    case EmailField => ValidateEmail(d.email)
    case FileField => d.file.Some?
  }

  /** The message `validateForm` records for a field that fails its check. */
  function RequiredMessage(f: Field): string
  {
    match f
    case NameField => "Please enter a valid name"
    case SurnameField => "Please enter a valid surname"
    case EmailField => "Please enter a valid email address"
    case FileField => "Please select an MP4 file"
  }

  predicate FormIsValid(d: FormRecord)
  {
    Passes(d, NameField) && Passes(d, SurnameField) && Passes(d, EmailField) && Passes(d, FileField)
  }

  /** `e` is the error record `validateForm` builds for `d`: an entry exactly
      for each failing check, holding that check's message. */
  predicate FreshErrors(e: map<Field, string>, d: FormRecord)
  {
    (forall f :: f in e <==> !Passes(d, f))
    && (forall f :: f in e ==> e[f] == RequiredMessage(f))
  }

  /** A form that passes `validateForm` also passes the upload client's guard,
      so the 'Missing required form data' error cannot follow a valid form. */
  lemma ValidFormHasRequiredData(d: FormRecord)
    requires FormIsValid(d)
    ensures HasRequiredData(d)
  {
  }

  class UploadForm {
    var formData: FormRecord
    var errors: map<Field, string>
    var isUploading: bool
    var uploadStatus: Option<UploadStatus>

    /** Only an admissible file ever sits in the form record. */
    predicate Valid()
      reads this
    {
      formData.file.Some? ==> Admissible(formData.file.value)
    }

    constructor ()
      ensures Valid()
      ensures formData == EmptyForm
      ensures errors == map[NameField := "", SurnameField := "", EmailField := "", FileField := ""]
      ensures !isUploading && uploadStatus == None
    {
      formData := EmptyForm;
      errors := map[NameField := "", SurnameField := "", EmailField := "", FileField := ""];
      isUploading := false;
      uploadStatus := None;
    }

    /** handleInputChange: stores the typed value in its own field and clears
        that field's error if one is shown; nothing else changes. */
    method HandleInputChange(f: Field, value: string)
      requires Valid()
      requires f != FileField
      modifies this`formData, this`errors
      ensures Valid()
      ensures formData == WithText(old(formData), f, value)
      ensures f in old(errors) && old(errors)[f] != "" ==> errors == old(errors)[f := ""]
      ensures !(f in old(errors) && old(errors)[f] != "") ==> errors == old(errors)
    {
      formData := WithText(formData, f, value);
      if f in errors && errors[f] != "" {
        errors := errors[f := ""];
      }
    }

    /** handleFileChange: a missing file, then a type other than video/mp4,
        then a size over 100 MiB is rejected, in that order, with the file
        error set and the form record untouched; an admitted file is stored and
        its error cleared. */
    method HandleFileChange(selected: Option<File>)
      requires Valid()
      modifies this`formData, this`errors
      ensures Valid()
      ensures selected.None? ==>
        formData == old(formData) && errors == old(errors)[FileField := NoFileMessage]
      ensures selected.Some? && selected.value.mimeType != RequiredType ==>
        formData == old(formData) && errors == old(errors)[FileField := WrongTypeMessage]
      ensures selected.Some? && selected.value.mimeType == RequiredType && selected.value.Size() > MaxFileSize ==>
        formData == old(formData) && errors == old(errors)[FileField := TooLargeMessage]
      ensures selected.Some? && Admissible(selected.value) ==>
        formData == old(formData).(file := selected) && errors == old(errors)[FileField := ""]
    {
      if selected.None? {
        errors := errors[FileField := NoFileMessage];
        return;
      }
      var file := selected.value;
      if file.mimeType != RequiredType {
        errors := errors[FileField := WrongTypeMessage];
        return;
      }
      if file.Size() > MaxFileSize {
        errors := errors[FileField := TooLargeMessage];
        return;
      }
      formData := formData.(file := Some(file));
      errors := errors[FileField := ""];
    }

    /** validateForm: replaces the error record with a fresh one that has an
        entry exactly for each failing check (earlier errors are dropped) and
        reports whether every check passed. */
    method ValidateForm() returns (isValid: bool)
      requires Valid()
      modifies this`errors
      ensures Valid()
      ensures FreshErrors(errors, formData)
      ensures isValid <==> FormIsValid(formData)
      ensures isValid <==> errors == map[]
    {
      var newErrors: map<Field, string> := map[];
      isValid := true;
      if !ValidateName(formData.name) {
        newErrors := newErrors[NameField := RequiredMessage(NameField)];
        isValid := false;
      }
      if !ValidateName(formData.surname) {
        newErrors := newErrors[SurnameField := RequiredMessage(SurnameField)];
        isValid := false;
      }
      if !ValidateEmail(formData.email) {
        newErrors := newErrors[EmailField := RequiredMessage(EmailField)];
        isValid := false;
      }
      if formData.file.None? {
        newErrors := newErrors[FileField := RequiredMessage(FileField)];
        isValid := false;
      }
      errors := newErrors;
      assert forall f :: f in errors <==> !Passes(formData, f);
      if !isValid {
        var f :| !Passes(formData, f);
        assert f in errors;
      }
    }

    /** handleSubmit, with `response` the webhook's answer. An invalid form
        sends nothing and leaves the flag, the banner and the record alone.
        A valid form sends one request; success shows the success banner and
        empties the record, failure shows the failure banner with the client's
        message and keeps the record; either way the flag ends clear. The
        single request in flight is the caller's duty: the submit button is
        disabled while uploading. */
    method HandleSubmit(response: Response) returns (sent: Option<Request>)
      requires Valid()
      requires !isUploading
      modifies this
      ensures Valid()
      ensures FreshErrors(errors, old(formData))
      ensures !FormIsValid(old(formData)) ==>
        sent.None? && formData == old(formData)
        && isUploading == old(isUploading) && uploadStatus == old(uploadStatus)
      ensures FormIsValid(old(formData)) ==> !isUploading && sent == Some(Request(WebhookUrl, "POST", [
        Part("name", Text(old(formData).name)), Part("surname", Text(old(formData).surname)),
        Part("email", Text(old(formData).email)), Part("file", Blob(old(formData).file.value))]))
      ensures FormIsValid(old(formData)) && response.Ok? ==>
        uploadStatus == Some(UploadStatus(false, UploadedStatusMessage)) && formData == EmptyForm
      ensures FormIsValid(old(formData)) && !response.Ok? ==>
        uploadStatus == Some(UploadStatus(true, FailedStatusPrefix + ResponseOutcome(response).error))
        && formData == old(formData)
    {
      var valid := ValidateForm();
      if !valid {
        return None;
      }
      ValidFormHasRequiredData(formData);
      isUploading := true;
      uploadStatus := None;
      var result;
      result, sent := UploadToWebhook(formData, response);
      match result {
        case Success(_) =>
          uploadStatus := Some(UploadStatus(false, UploadedStatusMessage));
          formData := EmptyForm;
        case Failure(message) =>
          uploadStatus := Some(UploadStatus(true, FailedStatusPrefix + message));
      }
      isUploading := false;
    }
  }

  /** A whole session on a freshly mounted form: the user types valid values,
      picks an admissible file and submits. Exactly one request carries the
      typed values and the file; success empties the form and failure keeps
      every value for another attempt. */
  method SubmitFilledForm(name: string, surname: string, email: string, video: File, response: Response)
    returns (status: Option<UploadStatus>, record: FormRecord, sent: Option<Request>)
    requires ValidateName(name) && ValidateName(surname) && ValidateEmail(email) && Admissible(video)
    ensures sent.Some? && sent.value.url == WebhookUrl
    ensures sent.value.body == [
      Part("name", Text(name)), Part("surname", Text(surname)),
      Part("email", Text(email)), Part("file", Blob(video))]
    ensures response.Ok? ==> status == Some(UploadStatus(false, UploadedStatusMessage)) && record == EmptyForm
    ensures !response.Ok? ==>
      status == Some(UploadStatus(true, FailedStatusPrefix + ResponseOutcome(response).error))
      && record == FormRecord(name, surname, email, Some(video))
  {
    var form := new UploadForm();
    form.HandleInputChange(NameField, name);
    form.HandleInputChange(SurnameField, surname);
    form.HandleInputChange(EmailField, email);
    form.HandleFileChange(Some(video));
    assert form.formData == FormRecord(name, surname, email, Some(video));
    ghost var before := form.formData;
    assert FormIsValid(before);
    ValidFormHasRequiredData(before);
    sent := form.HandleSubmit(response);
    status, record := form.uploadStatus, form.formData;
  }
}
