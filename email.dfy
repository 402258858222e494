/** Notification mails: the parts of each message the source computes (subject
    line, fall-backs, truncated and omitted sections, the acceptance colour
    switch), the checks made before connecting, the choice of transport, and
    how every failure of a send turns into `False`. The SMTP exchange itself is
    an input: `deliver` says how the server answers a given message. */
module Email {
  import opened Wrappers
  import opened Json
  import Text
  import OpenReview

  datatype EmailService = EmailService(
    smtpHost: string,
    smtpPort: int,
    smtpUser: string,
    smtpPassword: string,
    fromEmail: string,
    timeout: int)

  /** `EmailService(...)` with the default timeout. */
  function NewEmailService(smtpHost: string, smtpPort: int, smtpUser: string, smtpPassword: string, fromEmail: string): (r: EmailService)
    ensures r.timeout == 15
    ensures r.smtpHost == smtpHost && r.smtpPort == smtpPort && r.fromEmail == fromEmail
    ensures r.smtpUser == smtpUser && r.smtpPassword == smtpPassword
  {
    EmailService(smtpHost, smtpPort, smtpUser, smtpPassword, fromEmail, 15)
  }

  // ----- message parts -----

  /** `text[:limit] + ("..." if len(text) > limit else "")` */
  function Truncate(text: string, limit: nat): (r: string)
    ensures |text| <= limit ==> r == text
    ensures |text| > limit ==> |r| == limit + 3 && Text.EndsWith(r, "...")
  {
    if |text| > limit then text[..limit] + "..." else text
  }

  /** A cut text keeps exactly the first `limit` characters of the original. */
  lemma TruncateKeepsPrefix(text: string, limit: nat)
    requires |text| > limit
    ensures Truncate(text, limit)[..limit] == text[..limit]
    ensures Text.StartsWith(text, Truncate(text, limit)[..limit])
  {
  }

  const SummaryLimit: nat := 500
  const DetailLimit: nat := 300

  /** One optional text section: a falsy value omits it, text is cut to
      `limit`, and any other truthy value makes the string concatenation raise
      (`Failure`). */
  function Section(value: Json, limit: nat): (r: Result<Option<string>, string>)
    ensures !Truthy(value) ==> r == Success(None)
    ensures r.Failure? <==> Truthy(value) && !value.Str?
    ensures r.Success? && r.value.Some? ==> value.Str? && value.s != "" && r.value.value == Truncate(value.s, limit)
  {
    if !Truthy(value) then Success(None)
    else if value.Str? then Success(Some(Truncate(value.s, limit)))
    else Failure("TypeError")
  }

  /** The heading of a review block: "Reviewer i" in the review and decision
      mails, a plain "Modified Review" in the modified-review mail. */
  datatype BlockHeading = Reviewer(number: nat) | ModifiedReview

  /** The rendered part of one review: heading, rating and confidence, and the
      three optional sections. */
  datatype ReviewBlock = ReviewBlock(
    heading: BlockHeading,
    rating: Json,
    confidence: Json,
    summary: Option<string>,
    strengths: Option<string>,
    weaknesses: Option<string>)

  function BlockOf(heading: BlockHeading, review: OpenReview.Review): (r: Result<ReviewBlock, string>)
    ensures r.Success? ==>
      r.value.heading == heading && r.value.rating == review.rating && r.value.confidence == review.confidence
    ensures r.Failure? <==>
      Section(review.summary, SummaryLimit).Failure? || Section(review.strengths, DetailLimit).Failure?
      || Section(review.weaknesses, DetailLimit).Failure?
    ensures r.Success? ==>
      r.value.summary == if review.summary.Str? && review.summary.s != "" then Some(Truncate(review.summary.s, SummaryLimit)) else None
    ensures r.Success? ==>
      r.value.strengths == if review.strengths.Str? && review.strengths.s != "" then Some(Truncate(review.strengths.s, DetailLimit)) else None
    ensures r.Success? ==>
      r.value.weaknesses == if review.weaknesses.Str? && review.weaknesses.s != "" then Some(Truncate(review.weaknesses.s, DetailLimit)) else None
  {
    var summary := Section(review.summary, SummaryLimit);
    var strengths := Section(review.strengths, DetailLimit);
    var weaknesses := Section(review.weaknesses, DetailLimit);
    if summary.Failure? then Failure(summary.error)
    else if strengths.Failure? then Failure(strengths.error)
    else if weaknesses.Failure? then Failure(weaknesses.error)
    else Success(ReviewBlock(heading, review.rating, review.confidence, summary.value, strengths.value, weaknesses.value))
  }

  /** The heading of block `i` (from 0): numbered from 1 as `enumerate(reviews, 1)`
      does, or the modified-review heading. */
  function HeadingAt(numbered: bool, i: nat): (h: BlockHeading)
    ensures numbered ==> h == Reviewer(i + 1)
    ensures !numbered ==> h == ModifiedReview
  {
    if numbered then Reviewer(i + 1) else ModifiedReview
  }

  /** The blocks of `reviews`, each under the heading `HeadingAt` gives it. */
  function Blocks(reviews: seq<OpenReview.Review>, numbered: bool): (r: Result<seq<ReviewBlock>, string>)
    ensures r.Success? ==> |r.value| == |reviews|
    decreases |reviews|
  {
    if reviews == [] then Success([])
    else
      var init := Blocks(reviews[..|reviews| - 1], numbered);
      if init.Failure? then init
      else
        var last := BlockOf(HeadingAt(numbered, |reviews| - 1), reviews[|reviews| - 1]);
        if last.Failure? then Failure(last.error) else Success(init.value + [last.value])
  }

  /** Rendering succeeds exactly when every review renders, and block `i` is
      review `i`'s block under its own heading: numbered `i + 1`, or the
      modified-review heading. */
  lemma {:induction false} BlocksAreNumbered(reviews: seq<OpenReview.Review>, numbered: bool)
    ensures Blocks(reviews, numbered).Success? <==>
      forall i :: 0 <= i < |reviews| ==> BlockOf(HeadingAt(numbered, i), reviews[i]).Success?
    ensures Blocks(reviews, numbered).Success? ==>
      forall i :: 0 <= i < |reviews| ==> Blocks(reviews, numbered).value[i] == BlockOf(HeadingAt(numbered, i), reviews[i]).value
    decreases |reviews|
  {
    if reviews != [] {
      var init := reviews[..|reviews| - 1];
      BlocksAreNumbered(init, numbered);
      forall i | 0 <= i < |init| ensures init[i] == reviews[i] {
      }
    }
  }

  /** The `reviews_html += …` loop of the review templates (`enumerate(reviews, 1)`
      in the review and decision mails, a plain loop in the modified-review mail). */
  method RenderReviewBlocks(reviews: seq<OpenReview.Review>, numbered: bool) returns (r: Result<seq<ReviewBlock>, string>)
    ensures r == Blocks(reviews, numbered)
  {
    var blocks: seq<ReviewBlock> := [];
    var i := 0;
    while i < |reviews|
      invariant 0 <= i <= |reviews|
      invariant Blocks(reviews[..i], numbered) == Success(blocks)
    {
      assert reviews[..i + 1][..i] == reviews[..i];
      var block := BlockOf(HeadingAt(numbered, i), reviews[i]);
      if block.Failure? {
        assert Blocks(reviews[..i + 1], numbered).Failure?;
        FailureExtends(reviews, numbered, i + 1);
        return Failure(block.error);
      }
      blocks := blocks + [block.value];
      i := i + 1;
    }
    assert reviews[..|reviews|] == reviews;
    return Success(blocks);
  }

  /** Once a prefix fails to render, the whole list fails with the same error. */
  lemma {:induction false} FailureExtends(reviews: seq<OpenReview.Review>, numbered: bool, n: nat)
    requires n <= |reviews| && Blocks(reviews[..n], numbered).Failure?
    ensures Blocks(reviews, numbered) == Blocks(reviews[..n], numbered)
    decreases |reviews| - n
  {
    if n < |reviews| {
      assert reviews[..n + 1][..n] == reviews[..n];
      FailureExtends(reviews, numbered, n + 1);
    } else {
      assert reviews[..n] == reviews;
    }
  }

  /** `venue or "OpenReview"` */
  function Badge(venue: Option<string>): (r: string)
    ensures venue.None? || venue == Some("") ==> r == "OpenReview"
    ensures venue.Some? && venue.value != "" ==> r == venue.value
  {
    if venue.Some? && venue.value != "" then venue.value else "OpenReview"
  }

  /** `paper_title or paper_id` */
  function Heading(title: Option<string>, paperId: string): (r: string)
    ensures title.None? || title == Some("") ==> r == paperId
    ensures title.Some? && title.value != "" ==> r == title.value
  {
    if title.Some? && title.value != "" then title.value else paperId
  }

  function ReviewSubject(venue: Option<string>, title: Option<string>, paperId: string): string {
    "[" + Badge(venue) + "] Reviews available: " + Heading(title, paperId)
  }

  function DecisionSubject(venue: Option<string>, title: Option<string>, paperId: string, decision: string): string {
    "[" + Badge(venue) + "] Decision: " + decision + " - " + Heading(title, paperId)
  }

  function ModifiedSubject(venue: Option<string>, title: Option<string>, paperId: string): string {
    "[" + Badge(venue) + "] Reviews Modified: " + Heading(title, paperId)
  }

  const TestSubject: string := "[OpenReview Monitor] Test Email"

  lemma {:induction false} Framed(a: string, b: string, c: string)
    ensures Text.StartsWith(a + b + c, a) && Text.EndsWith(a + b + c, c)
  {
    assert (a + b + c)[..|a|] == a;
    assert (a + b + c)[|a + b + c| - |c|..] == c;
  }

  /** Every subject names the venue badge first and the heading last, so a
      missing venue shows "[OpenReview]" and a missing title shows the id. */
  lemma ReviewSubjectFrame(venue: Option<string>, title: Option<string>, paperId: string)
    ensures Text.StartsWith(ReviewSubject(venue, title, paperId), "[" + Badge(venue) + "]")
    ensures Text.EndsWith(ReviewSubject(venue, title, paperId), Heading(title, paperId))
  {
    Framed("[" + Badge(venue) + "]", " Reviews available: ", Heading(title, paperId));
  }

  lemma DecisionSubjectFrame(venue: Option<string>, title: Option<string>, paperId: string, decision: string)
    ensures Text.StartsWith(DecisionSubject(venue, title, paperId, decision), "[" + Badge(venue) + "]")
    ensures Text.EndsWith(DecisionSubject(venue, title, paperId, decision), " - " + Heading(title, paperId))
  {
    var b := "[" + Badge(venue) + "]";
    var h := Heading(title, paperId);
    assert DecisionSubject(venue, title, paperId, decision) == b + (" Decision: " + decision) + (" - " + h);
    Framed(b, " Decision: " + decision, " - " + h);
  }

  lemma ModifiedSubjectFrame(venue: Option<string>, title: Option<string>, paperId: string)
    ensures Text.StartsWith(ModifiedSubject(venue, title, paperId), "[" + Badge(venue) + "]")
    ensures Text.EndsWith(ModifiedSubject(venue, title, paperId), Heading(title, paperId))
  {
    Framed("[" + Badge(venue) + "]", " Reviews Modified: ", Heading(title, paperId));
  }

  /** `"accept" in decision.lower()` */
  predicate IsAccepted(decision: string) {
    Text.Contains(Text.Lower(decision), "accept")
  }

  /** The decision mail's colour switch agrees with the status the paper was
      given from the same decision text. */
  lemma AcceptedAgreesWithStatus(d: OpenReview.Decision, reviews: seq<OpenReview.Review>)
    requires d.decision.Str?
    ensures OpenReview.Classify(Some(d), reviews) == "accepted" <==> IsAccepted(d.decision.s)
  {
  }

  /** The body of each kind of notification, reduced to what varies. */
  datatype Content =
    | ReviewContent(badge: string, heading: string, reviewCount: nat, blocks: seq<ReviewBlock>)
    | DecisionContent(badge: string, heading: string, decision: string, accepted: bool,
                      comment: Option<string>, ratings: seq<Json>)
    | ModifiedContent(badge: string, heading: string, blocks: seq<ReviewBlock>)
    | TestContent

  datatype Mail = Mail(subject: string, sender: string, recipient: string, content: Content)

  /** The message `send_review_notification` builds; `Failure` is an error
      raised while rendering. */
  function ReviewMail(svc: EmailService, to: string, title: Option<string>, paperId: string,
                      venue: Option<string>, reviews: seq<OpenReview.Review>): (r: Result<Mail, string>)
    ensures r.Success? ==>
      r.value.subject == ReviewSubject(venue, title, paperId) && r.value.recipient == to && r.value.sender == svc.fromEmail
    ensures r.Success? <==> Blocks(reviews, true).Success?
    ensures r.Success? ==>
      r.value.content == ReviewContent(Badge(venue), Heading(title, paperId), |reviews|, Blocks(reviews, true).value)
  {
    var blocks := Blocks(reviews, true);
    if blocks.Failure? then Failure(blocks.error)
    else Success(Mail(ReviewSubject(venue, title, paperId), svc.fromEmail, to,
                      ReviewContent(Badge(venue), Heading(title, paperId), |reviews|, blocks.value)))
  }

  /** The comment section: shown only when truthy, and only text can be shown. */
  function CommentSection(comment: Json): (r: Result<Option<string>, string>)
    ensures !Truthy(comment) ==> r == Success(None)
    ensures r.Failure? <==> Truthy(comment) && !comment.Str?
    ensures Truthy(comment) && comment.Str? ==> r == Success(Some(comment.s))
  {
    if !Truthy(comment) then Success(None)
    else if comment.Str? then Success(Some(comment.s))
    else Failure("TypeError")
  }

  function Ratings(reviews: seq<OpenReview.Review>): (r: seq<Json>)
    ensures |r| == |reviews|
    ensures forall i :: 0 <= i < |reviews| ==> r[i] == reviews[i].rating
  {
    seq(|reviews|, i requires 0 <= i < |reviews| => reviews[i].rating)
  }

  /** The message `send_decision_notification` builds. The decision must be
      text: `decision.lower()` raises on anything else. */
  function DecisionMail(svc: EmailService, to: string, title: Option<string>, paperId: string,
                        venue: Option<string>, decision: Json, comment: Json,
                        reviews: seq<OpenReview.Review>): (r: Result<Mail, string>)
    ensures r.Success? <==> decision.Str? && CommentSection(comment).Success?
    ensures r.Success? ==>
      && r.value.subject == DecisionSubject(venue, title, paperId, decision.s)
      && r.value.recipient == to
      && r.value.content.DecisionContent?
      && r.value.content.accepted == IsAccepted(decision.s)
      && r.value.content.ratings == Ratings(reviews)
    ensures r.Success? ==>
      && r.value.sender == svc.fromEmail
      && r.value.content == DecisionContent(Badge(venue), Heading(title, paperId), decision.s, IsAccepted(decision.s),
                                            CommentSection(comment).value, Ratings(reviews))
  {
    if !decision.Str? then Failure("AttributeError")
    else
      var c := CommentSection(comment);
      if c.Failure? then Failure(c.error)
      else Success(Mail(DecisionSubject(venue, title, paperId, decision.s), svc.fromEmail, to,
                        DecisionContent(Badge(venue), Heading(title, paperId), decision.s,
                                        IsAccepted(decision.s), c.value, Ratings(reviews))))
  }

  /** The message `send_review_modified_notification` builds. */
  function ModifiedMail(svc: EmailService, to: string, title: Option<string>, paperId: string,
                        venue: Option<string>, modified: seq<OpenReview.Review>): (r: Result<Mail, string>)
    ensures r.Success? ==>
      r.value.subject == ModifiedSubject(venue, title, paperId) && r.value.recipient == to && r.value.sender == svc.fromEmail
    ensures r.Success? <==> Blocks(modified, false).Success?
    ensures r.Success? ==> r.value.content == ModifiedContent(Badge(venue), Heading(title, paperId), Blocks(modified, false).value)
  {
    var blocks := Blocks(modified, false);
    if blocks.Failure? then Failure(blocks.error)
    else Success(Mail(ModifiedSubject(venue, title, paperId), svc.fromEmail, to,
                      ModifiedContent(Badge(venue), Heading(title, paperId), blocks.value)))
  }

  // ----- sending -----

  datatype Transport = ImplicitSsl | StartTls

  /** How the SMTP exchange ends, by the exception it raises. */
  datatype SmtpOutcome =
    | Delivered
    | TimedOut
    | UnresolvedHost(detail: string)
    | Refused
    | AuthenticationFailed(detail: string)
    | SmtpFailure(detail: string)
    | OtherFailure(typeName: string, detail: string)

  const CredentialsMessage: string := "SMTP credentials not configured. Please set SMTP username and password."
  const FromMessage: string := "From email not configured. Please set the sender email address."

  /** The checks `_send_email_sync` makes before connecting, and the transport
      it then uses. */
  function PreSend(svc: EmailService): (r: Result<Transport, string>)
    ensures svc.smtpUser == "" || svc.smtpPassword == "" ==> r == Failure(CredentialsMessage)
    ensures svc.smtpUser != "" && svc.smtpPassword != "" && svc.fromEmail == "" ==> r == Failure(FromMessage)
    ensures r.Success? <==> svc.smtpUser != "" && svc.smtpPassword != "" && svc.fromEmail != ""
    ensures r.Success? ==> (r.value == ImplicitSsl <==> svc.smtpPort == 465)
  {
    if svc.smtpUser == "" || svc.smtpPassword == "" then Failure(CredentialsMessage)
    else if svc.fromEmail == "" then Failure(FromMessage)
    else if svc.smtpPort == 465 then Success(ImplicitSsl)
    else Success(StartTls)
  }

  function Endpoint(svc: EmailService): string {
    svc.smtpHost + ":" + Text.IntToString(svc.smtpPort)
  }

  /** The ValueError message each failed exchange is turned into. */
  function OutcomeMessage(svc: EmailService, outcome: SmtpOutcome): string
    requires !outcome.Delivered?
  {
    match outcome
    case TimedOut =>
      "Connection to " + Endpoint(svc) + " timed out after " + Text.IntToString(svc.timeout)
        + "s. Please check your SMTP host and port."
    case UnresolvedHost(e) =>
      "Cannot resolve SMTP host '" + svc.smtpHost + "'. Please check the hostname. Error: " + e
    case Refused =>
      "Connection refused by " + Endpoint(svc) + ". Please check if the port is correct."
    case AuthenticationFailed(e) =>
      "SMTP authentication failed. Please check your username and password. Error: " + e
    case SmtpFailure(e) => "SMTP error: " + e
    case OtherFailure(t, e) => "Failed to send email: " + t + ": " + e
  }

  /** `_send_email_sync`: the configuration errors come before any connection,
      so then the server's answer plays no part. */
  function SendSync(svc: EmailService, outcome: SmtpOutcome): (r: Result<Transport, string>)
    ensures PreSend(svc).Failure? ==> r == Failure(PreSend(svc).error)
    ensures r.Success? <==> PreSend(svc).Success? && outcome.Delivered?
    ensures r.Success? ==> r.value == PreSend(svc).value
    ensures PreSend(svc).Success? && !outcome.Delivered? ==> r == Failure(OutcomeMessage(svc, outcome))
  {
    var pre := PreSend(svc);
    if pre.Failure? then pre
    else if outcome.Delivered? then pre
    else Failure(OutcomeMessage(svc, outcome))
  }

  /** A `send_*_notification` call: `True` exactly when the message renders and
      the exchange succeeds; every error becomes `False`. */
  function Deliver(svc: EmailService, mail: Result<Mail, string>, deliver: Mail -> SmtpOutcome): (ok: bool)
    ensures ok <==> mail.Success? && PreSend(svc).Success? && deliver(mail.value).Delivered?
  {
    mail.Success? && SendSync(svc, deliver(mail.value)).Success?
  }

  function SendReviewNotification(svc: EmailService, to: string, title: Option<string>, paperId: string,
                                  venue: Option<string>, reviews: seq<OpenReview.Review>,
                                  deliver: Mail -> SmtpOutcome): (ok: bool)
    ensures ok ==> PreSend(svc).Success? && Blocks(reviews, true).Success?
  {
    Deliver(svc, ReviewMail(svc, to, title, paperId, venue, reviews), deliver)
  }

  function SendDecisionNotification(svc: EmailService, to: string, title: Option<string>, paperId: string,
                                    venue: Option<string>, decision: Json, comment: Json,
                                    reviews: seq<OpenReview.Review>, deliver: Mail -> SmtpOutcome): (ok: bool)
    ensures ok ==> PreSend(svc).Success? && decision.Str?
  {
    Deliver(svc, DecisionMail(svc, to, title, paperId, venue, decision, comment, reviews), deliver)
  }

  function SendReviewModifiedNotification(svc: EmailService, to: string, title: Option<string>, paperId: string,
                                          venue: Option<string>, modified: seq<OpenReview.Review>,
                                          deliver: Mail -> SmtpOutcome): (ok: bool)
    ensures ok ==> PreSend(svc).Success? && Blocks(modified, false).Success?
  {
    Deliver(svc, ModifiedMail(svc, to, title, paperId, venue, modified), deliver)
  }

  /** A service missing credentials or a sender never reports a sent
      notification, whatever the server would have answered. */
  lemma MisconfiguredNeverSends(svc: EmailService, to: string, title: Option<string>, paperId: string,
                                venue: Option<string>, reviews: seq<OpenReview.Review>, decision: Json,
                                comment: Json, deliver: Mail -> SmtpOutcome)
    requires svc.smtpUser == "" || svc.smtpPassword == "" || svc.fromEmail == ""
    ensures !SendReviewNotification(svc, to, title, paperId, venue, reviews, deliver)
    ensures !SendDecisionNotification(svc, to, title, paperId, venue, decision, comment, reviews, deliver)
    ensures !SendReviewModifiedNotification(svc, to, title, paperId, venue, reviews, deliver)
  {
  }

  /** A configured service whose server accepts the message reports success
      for text-only reviews, both for new and for modified reviews. */
  lemma ConfiguredReviewSends(svc: EmailService, to: string, title: Option<string>, paperId: string,
                              venue: Option<string>, reviews: seq<OpenReview.Review>, deliver: Mail -> SmtpOutcome)
    requires svc.smtpUser != "" && svc.smtpPassword != "" && svc.fromEmail != ""
    requires forall i :: 0 <= i < |reviews| ==>
      (!Truthy(reviews[i].summary) || reviews[i].summary.Str?)
      && (!Truthy(reviews[i].strengths) || reviews[i].strengths.Str?)
      && (!Truthy(reviews[i].weaknesses) || reviews[i].weaknesses.Str?)
    requires forall m :: deliver(m) == Delivered
    ensures SendReviewNotification(svc, to, title, paperId, venue, reviews, deliver)
    ensures SendReviewModifiedNotification(svc, to, title, paperId, venue, reviews, deliver)
  {
    BlocksAreNumbered(reviews, true);
    BlocksAreNumbered(reviews, false);
  }

  /** `send_test_email_sync`: unlike the notifications, errors propagate. */
  function SendTestEmail(svc: EmailService, to: string, deliver: Mail -> SmtpOutcome): (r: Result<bool, string>)
    ensures r.Success? ==> r.value
    ensures r.Success? <==> PreSend(svc).Success? && deliver(Mail(TestSubject, svc.fromEmail, to, TestContent)).Delivered?
    ensures PreSend(svc).Failure? ==> r == Failure(PreSend(svc).error)
  {
    var sent := SendSync(svc, deliver(Mail(TestSubject, svc.fromEmail, to, TestContent)));
    if sent.Failure? then Failure(sent.error) else Success(true)
  }
}
