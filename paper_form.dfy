/** `PaperForm`: the subscribe flow. The backend's answers are inputs, one
    per awaited call; each handler's effect is its final state (the loading
    flags are false again once a handler has finished). */
module PaperForm {
  import opened Wrappers
  import Text
  import ApiClient

  datatype Step = InputStep | PreviewStep | SuccessStep

  datatype PaperPreview = PaperPreview(openreviewId: string, title: Option<string>, venue: Option<string>, authors: seq<string>)

  datatype FormData = FormData(openreviewUrl: string, openreviewUsername: string, openreviewPassword: string,
                               email: string, notifyOnReview: bool, notifyOnReviewModified: bool, notifyOnDecision: bool)

  /** The empty form: every notification wanted. */
  const EmptyForm: FormData := FormData("", "", "", "", true, true, true)

  datatype PreviewRequest = PreviewRequest(openreviewUrl: string, username: Option<string>, password: Option<string>)

  datatype VerificationRequest = VerificationRequest(email: string, openreviewId: string)

  datatype VerificationReply = VerificationReply(message: string, expiresInMinutes: int)

  datatype PaperCreate = PaperCreate(openreviewId: string, title: string, venue: string, email: string,
                                     verificationCode: string, username: Option<string>, password: Option<string>,
                                     notifyOnReview: bool, notifyOnReviewModified: bool, notifyOnDecision: bool)

  /** `value || undefined`: an empty credential is not sent. */
  function OrUndefined(value: string): (r: Option<string>)
    ensures r.None? <==> value == ""
    ensures r.Some? ==> r.value == value
  {
    if value == "" then None else Some(value)
  }

  /** The preview request built from the form. */
  function PreviewRequestOf(form: FormData): (r: PreviewRequest)
    ensures r.openreviewUrl == form.openreviewUrl
    ensures r.username == OrUndefined(form.openreviewUsername) && r.password == OrUndefined(form.openreviewPassword)
  {
    PreviewRequest(form.openreviewUrl, OrUndefined(form.openreviewUsername), OrUndefined(form.openreviewPassword))
  }

  /** `addPaper`'s payload for a previewed paper. */
  function CreateRequest(preview: PaperPreview, form: FormData, code: string): PaperCreate {
    PaperCreate(preview.openreviewId,
                if preview.title.Some? && preview.title.value != "" then preview.title.value else preview.openreviewId,
                if preview.venue.Some? && preview.venue.value != "" then preview.venue.value else "Unknown",
                form.email, Text.Trim(code),
                OrUndefined(form.openreviewUsername), OrUndefined(form.openreviewPassword),
                form.notifyOnReview, form.notifyOnReviewModified, form.notifyOnDecision)
  }

  /** The subscription request: the title falls back to the id and the venue
      to "Unknown", the code is trimmed, empty credentials are omitted and the
      three preferences are sent as chosen. */
  lemma CreateRequestFields(preview: PaperPreview, form: FormData, code: string)
    ensures var r := CreateRequest(preview, form, code);
      && r.openreviewId == preview.openreviewId && r.email == form.email
      && r.title == (if preview.title.Some? && preview.title.value != "" then preview.title.value else preview.openreviewId)
      && r.venue == (if preview.venue.Some? && preview.venue.value != "" then preview.venue.value else "Unknown")
      && (r.title != "" || preview.openreviewId == "")
      && r.verificationCode == Text.Trim(code)
      && (r.username.None? <==> form.openreviewUsername == "") && (r.password.None? <==> form.openreviewPassword == "")
      && r.notifyOnReview == form.notifyOnReview && r.notifyOnReviewModified == form.notifyOnReviewModified
      && r.notifyOnDecision == form.notifyOnDecision
  {
  }

  /** The sender address shown on the form: the configured one, trimmed, when
      it is not blank. */
  function SenderEmail(result: ApiClient.ApiResponse<Option<string>>): (r: Option<string>)
    ensures r.Some? ==> r.value != "" && result.Data? && result.data.Some? && r.value == Text.Trim(result.data.value)
    ensures r.None? <==> result.Error? || result.data.None? || Text.Trim(result.data.value) == ""
  {
    if result.Data? && result.data.Some? && Text.Trim(result.data.value) != "" then Some(Text.Trim(result.data.value)) else None
  }

  /** All of the form's state at once. */
  datatype FormView = FormView(step: Step, loading: bool, preview: Option<PaperPreview>, senderEmail: Option<string>,
                               verificationCode: string, verificationSent: bool, verificationSending: bool,
                               verificationExpiresIn: Option<int>, formData: FormData)

  /** A code is only sent for a previewed paper, an expiry only accompanies
      a sent code, and only the first step can lack a preview. */
  predicate ValidView(v: FormView) {
    && (v.verificationSent ==> v.preview.Some?)
    && (v.verificationExpiresIn.Some? ==> v.verificationSent)
    && (v.step != InputStep ==> v.preview.Some?)
  }

  /** The fields `handleReset` restores, as they are initially. */
  function Cleared(v: FormView): (r: FormView)
    ensures ValidView(r)
  {
    v.(step := InputStep, preview := None, formData := EmptyForm,
       verificationCode := "", verificationSent := false, verificationExpiresIn := None)
  }

  /** `disabled={loading || !formData.email || !verificationSent || !verificationCode}` */
  predicate SubscribeEnabled(v: FormView) {
    !v.loading && v.formData.email != "" && v.verificationSent && v.verificationCode != ""
  }

  /** `disabled={!formData.email || verificationSending}` */
  predicate SendCodeEnabled(v: FormView) {
    v.formData.email != "" && !v.verificationSending
  }

  /** The state after the e-mail field changes: a changed address
      invalidates a sent or typed code, so subscribing needs a new one. */
  function AfterEmailChange(v: FormView, next: string): (r: FormView)
    ensures ValidView(v) ==> ValidView(r)
    ensures v.verificationSent || v.verificationCode != "" ==> !SubscribeEnabled(r) && r.verificationExpiresIn.None?
    ensures r.formData.email == next && !r.verificationSent && r.verificationCode == ""
  {
    var typed := v.(formData := v.formData.(email := next));
    if v.verificationSent || v.verificationCode != "" then
      typed.(verificationSent := false, verificationCode := "", verificationExpiresIn := None)
    else typed
  }

  /** Editing the address twice is editing it once to the final value. */
  lemma EmailChangeLast(v: FormView, first: string, second: string)
    ensures AfterEmailChange(AfterEmailChange(v, first), second) == AfterEmailChange(v, second)
  {
  }

  class PaperFormState {
    var step: Step
    var loading: bool
    var preview: Option<PaperPreview>
    var senderEmail: Option<string>
    var verificationCode: string
    var verificationSent: bool
    var verificationSending: bool
    var verificationExpiresIn: Option<int>
    var formData: FormData

    function View(): FormView
      reads this
    {
      FormView(step, loading, preview, senderEmail, verificationCode, verificationSent, verificationSending,
               verificationExpiresIn, formData)
    }

    /** The initial state. */
    constructor ()
      ensures View() == Cleared(View()) && ValidView(View())
      ensures !loading && !verificationSending && senderEmail.None?
    {
      step := InputStep;
      loading := false;
      preview := None;
      senderEmail := None;
      verificationCode := "";
      verificationSent := false;
      verificationSending := false;
      verificationExpiresIn := None;
      formData := EmptyForm;
    }

    /** The mount effect: the sender address from the public e-mail config. */
    method LoadSenderEmail(result: ApiClient.ApiResponse<Option<string>>)
      modifies this
      ensures View() == old(View()).(senderEmail := SenderEmail(result))
    {
      senderEmail := SenderEmail(result);
    }

    /** `handlePreview`: a shown error keeps the step; a preview moves to the
        preview step and forgets any earlier verification. */
    method HandlePreview(result: ApiClient.ApiResponse<PaperPreview>) returns (request: PreviewRequest)
      requires ValidView(View())
      modifies this
      ensures ValidView(View())
      ensures request == PreviewRequestOf(old(formData))
      ensures result.Data? ==> View() == old(View()).(step := PreviewStep, preview := Some(result.data),
        verificationSent := false, verificationCode := "", verificationExpiresIn := None, loading := false)
      ensures result.Error? ==> View() == old(View()).(loading := false)
    {
      loading := true;
      request := PreviewRequestOf(formData);
      if ApiClient.ErrorShown(result) {
      } else if result.Data? {
        preview := Some(result.data);
        step := PreviewStep;
        verificationSent := false;
        verificationCode := "";
        verificationExpiresIn := None;
      }
      loading := false;
    }

    /** `handleSendVerification`: nothing is asked without a preview or an
        address; a sent code records its expiry. */
    method HandleSendVerification(result: ApiClient.ApiResponse<VerificationReply>) returns (request: Option<VerificationRequest>)
      requires ValidView(View())
      modifies this
      ensures ValidView(View())
      ensures request.None? <==> old(preview).None? || old(formData.email) == ""
      ensures request.None? ==> View() == old(View())
      ensures request.Some? ==> request.value == VerificationRequest(old(formData.email), old(preview).value.openreviewId)
      ensures request.Some? && result.Data? ==> View() == old(View()).(verificationSent := true,
        verificationExpiresIn := Some(result.data.expiresInMinutes), verificationSending := false)
      ensures request.Some? && result.Error? ==> View() == old(View()).(verificationSending := false)
    {
      if preview.None? || formData.email == "" {
        return None;
      }
      verificationSending := true;
      request := Some(VerificationRequest(formData.email, preview.value.openreviewId));
      if ApiClient.ErrorShown(result) {
      } else if result.Data? {
        verificationSent := true;
        verificationExpiresIn := Some(result.data.expiresInMinutes);
      }
      verificationSending := false;
    }

    /** The e-mail field's `onChange`. */
    method EmailChange(next: string)
      requires ValidView(View())
      modifies this
      ensures ValidView(View())
      ensures View() == AfterEmailChange(old(View()), next)
    {
      formData := formData.(email := next);
      if verificationSent || verificationCode != "" {
        verificationSent := false;
        verificationCode := "";
        verificationExpiresIn := None;
      }
    }

    /** The code field's `onChange`. */
    method CodeChange(next: string)
      requires ValidView(View())
      modifies this
      ensures ValidView(View())
      ensures View() == old(View()).(verificationCode := next)
    {
      verificationCode := next;
    }

    /** `handleConfirm`: without a preview nothing is sent; a shown error stays
        where it was, anything else moves to the success step. */
    method HandleConfirm(result: ApiClient.ApiResponse<string>) returns (request: Option<PaperCreate>)
      requires ValidView(View())
      modifies this
      ensures ValidView(View())
      ensures request.None? <==> old(preview).None?
      ensures request.None? ==> View() == old(View())
      ensures request.Some? ==> request.value == CreateRequest(old(preview).value, old(formData), old(verificationCode))
      ensures request.Some? && ApiClient.ErrorShown(result) ==> View() == old(View()).(loading := false)
      ensures request.Some? && !ApiClient.ErrorShown(result) ==> View() == old(View()).(step := SuccessStep, loading := false)
    {
      if preview.None? {
        return None;
      }
      request := Some(CreateRequest(preview.value, formData, verificationCode));
      ConfirmOutcome(result);
    }

    /** The state change of `handleConfirm` once the payload is sent. */
    method ConfirmOutcome(result: ApiClient.ApiResponse<string>)
      requires ValidView(View()) && preview.Some?
      modifies this
      ensures ValidView(View())
      ensures ApiClient.ErrorShown(result) ==> View() == old(View()).(loading := false)
      ensures !ApiClient.ErrorShown(result) ==> View() == old(View()).(step := SuccessStep, loading := false)
    {
      loading := true;
      if ApiClient.ErrorShown(result) {
      } else {
        step := SuccessStep;
      }
      loading := false;
    }

    /** The back button: the preview and the form are kept. */
    method Back()
      requires ValidView(View())
      modifies this
      ensures ValidView(View())
      ensures View() == old(View()).(step := InputStep)
    {
      step := InputStep;
    }

    /** `handleReset`: back to the initial form. */
    method HandleReset()
      modifies this
      ensures View() == Cleared(old(View())) && ValidView(View())
    {
      step := InputStep;
      preview := None;
      formData := EmptyForm;
      verificationCode := "";
      verificationSent := false;
      verificationExpiresIn := None;
    }
  }
}
