/** The periodic check: which papers are polled, in which order, and what one
    paper's check writes back and mails out. The OpenReview client, the cipher,
    the clock and the SMTP exchange are the fields of an `Env`. */
module Scheduler {
  import opened Wrappers
  import Text
  import Crypto
  import OpenReview
  import Email
  import Tables
  import Sorting
  import Grouping
  import AppSettings
  import Http

  // ----- the e-mail service -----

  /** `get_config_value` of `get_email_service`: the stored value, possibly
      null, or the default when no row exists. */
  function ConfigOr(config: Tables.ConfigTable, key: Tables.ConfigKey, default: string): (r: Option<string>)
    ensures key in config ==> r == config[key]
    ensures key !in config ==> r == Some(default)
  {
    if key in config then config[key] else Some(default)
  }

  /** The `from_name` fallback: a stored value that is non-blank once stripped
      wins, stripped; a null or blank stored value gives the default. */
  function FromName(config: Tables.ConfigTable, default: string): (r: string)
    ensures Tables.FromName in config && config[Tables.FromName].Some? && Text.Trim(config[Tables.FromName].value) != ""
      ==> r == Text.Trim(config[Tables.FromName].value)
    ensures Tables.FromName in config && (config[Tables.FromName].None? || Text.Trim(config[Tables.FromName].value) == "")
      ==> r == default
    ensures Tables.FromName !in config ==> r == (if Text.Trim(default) != "" then Text.Trim(default) else default)
  {
    var stored := ConfigOr(config, Tables.FromName, default);
    var stripped := if stored.Some? && stored.value != "" then Text.Trim(stored.value) else "";
    if stripped == "" then default else stripped
  }

  const UnexpectedFromName: string := "__init__() got an unexpected keyword argument 'from_name'"

  /** `get_email_service` as written. Reading `settings.from_name` raises when
      the setting is not declared; otherwise the port is parsed and the
      password decrypted, and then the constructor rejects the `from_name`
      keyword, because `EmailService` takes none. */
  function GetEmailService(config: Tables.ConfigTable, settings: AppSettings.Settings,
                           open: string -> Option<string>): (r: Result<Email.EmailService, Http.Raised>)
    ensures r.Failure?
    ensures settings.fromName.None? ==> r.error == Http.AttributeError(AppSettings.MissingSetting("from_name"))
    ensures settings.fromName.Some? && Crypto.DecryptValue(ConfigOr(config, Tables.SmtpPassword, settings.smtpPassword), open).Success?
      && ConfigOr(config, Tables.SmtpPort, Text.IntToString(settings.smtpPort)).Some?
      && Text.ParseInt(ConfigOr(config, Tables.SmtpPort, Text.IntToString(settings.smtpPort)).value).Some?
      ==> r.error == Http.TypeError(UnexpectedFromName)
  {
    if settings.fromName.None? then Failure(Http.AttributeError(AppSettings.MissingSetting("from_name")))
    else
      var port := ConfigOr(config, Tables.SmtpPort, Text.IntToString(settings.smtpPort));
      if port.None? then Failure(Http.TypeError("int() argument must be a string, a bytes-like object or a real number, not 'NoneType'"))
      else if Text.ParseInt(port.value).None? then Failure(Http.ValueError("invalid literal for int() with base 10: '" + port.value + "'"))
      else
        var password := Crypto.DecryptValue(ConfigOr(config, Tables.SmtpPassword, settings.smtpPassword), open);
        if password.Failure? then Failure(Http.ValueError(password.error))
        else Failure(Http.TypeError(UnexpectedFromName))
  }

  // ----- the outside world -----

  /** The clock reading of this run, the cipher's decryption, the two note
      fetches of `check_paper_status` (forum id, user name, password; `Failure`
      carries the exception text) and the SMTP exchange. */
  datatype Env = Env(
    now: int,
    open: string -> Option<string>,
    reviewNotes: (string, Option<string>, Option<string>) -> Result<seq<OpenReview.Note>, string>,
    decisionNotes: (string, Option<string>, Option<string>) -> Result<seq<OpenReview.Note>, string>,
    deliver: Email.Mail -> Email.SmtpOutcome)

  /** `check_paper_status(paper.openreview_id, suppress_errors=False)` with
      the stored credentials decrypted first; any exception is a `Failure`. */
  function StatusOf(p: Tables.Paper, env: Env): (r: Result<OpenReview.StatusReport, string>)
    ensures r.Success? ==> r.value.reviewCount == |r.value.reviews|
    ensures r.Success? ==> (r.value.hasDecision <==> r.value.decision.Some?)
  {
    var user := Crypto.DecryptValue(p.username, env.open);
    var pass := Crypto.DecryptValue(p.password, env.open);
    if user.Failure? then Failure(user.error)
    else if pass.Failure? then Failure(pass.error)
    else
      var rn := env.reviewNotes(p.openreviewId, user.value, pass.value);
      var dn := env.decisionNotes(p.openreviewId, user.value, pass.value);
      if rn.Failure? then Failure(rn.error)
      else if dn.Failure? then Failure(dn.error)
      else Success(OpenReview.Report(OpenReview.ReviewsOf(rn.value), OpenReview.FirstDecision(dn.value)))
  }

  // ----- modified reviews -----

  /** `{r["id"]: r for r in stored_reviews}`: a later review with the same id
      replaces an earlier one. */
  function StoredById(stored: seq<OpenReview.Review>): (m: map<string, OpenReview.Review>)
    ensures forall id :: id in m ==> m[id].id == id
    ensures forall i :: 0 <= i < |stored| ==> stored[i].id in m
    decreases |stored|
  {
    if stored == [] then map[]
    else StoredById(stored[..|stored| - 1])[stored[|stored| - 1].id := stored[|stored| - 1]]
  }

  /** A stored id maps to the last stored review carrying it. */
  lemma {:induction false} StoredByIdLastWins(stored: seq<OpenReview.Review>, i: nat)
    requires i < |stored|
    requires forall j :: i < j < |stored| ==> stored[j].id != stored[i].id
    ensures StoredById(stored)[stored[i].id] == stored[i]
    decreases |stored|
  {
    if i < |stored| - 1 {
      var init := stored[..|stored| - 1];
      assert init[i] == stored[i];
      StoredByIdLastWins(init, i);
    }
  }

  /** An id is stored exactly when some stored review carries it. */
  lemma {:induction false} StoredByIdKeys(stored: seq<OpenReview.Review>, id: string)
    ensures id in StoredById(stored) <==> exists i :: 0 <= i < |stored| && stored[i].id == id
    decreases |stored|
  {
    if stored != [] {
      var init := stored[..|stored| - 1];
      StoredByIdKeys(init, id);
      if id in StoredById(init) {
        var i :| 0 <= i < |init| && init[i].id == id;
        assert stored[i] == init[i];
      }
    }
  }

  /** A truthy `mdate`: present and non-zero. */
  predicate MdateSet(m: Option<int>) {
    m.Some? && m.value != 0
  }

  /** The modification test of one fetched review against the stored ones. */
  predicate IsModified(r: OpenReview.Review, stored: map<string, OpenReview.Review>) {
    r.id in stored && MdateSet(stored[r.id].mdate) && MdateSet(r.mdate) && stored[r.id].mdate != r.mdate
  }

  /** The fetched reviews that count as modified, in fetch order. */
  function ModifiedReviews(reviews: seq<OpenReview.Review>, stored: map<string, OpenReview.Review>): (r: seq<OpenReview.Review>)
    ensures |r| <= |reviews|
    decreases |reviews|
  {
    if reviews == [] then []
    else
      var last := reviews[|reviews| - 1];
      ModifiedReviews(reviews[..|reviews| - 1], stored) + (if IsModified(last, stored) then [last] else [])
  }

  /** A review is reported modified exactly when it was fetched, its id is
      stored, and both modification dates are set and differ; a review with a
      new id never is. */
  lemma {:induction false} ModifiedExactly(reviews: seq<OpenReview.Review>, stored: map<string, OpenReview.Review>, x: OpenReview.Review)
    ensures x in ModifiedReviews(reviews, stored) <==> x in reviews && IsModified(x, stored)
    ensures x in ModifiedReviews(reviews, stored) ==> x.id in stored
    decreases |reviews|
  {
    if reviews != [] {
      var init := reviews[..|reviews| - 1];
      ModifiedExactly(init, stored, x);
      assert reviews == init + [reviews[|reviews| - 1]];
    }
  }

  // ----- notifications -----

  /** `notify_on_review_modified` subscribers of the paper. */
  function WantsModified(pid: nat): Tables.Subscriber -> bool {
    (s: Tables.Subscriber) => s.paperId == pid && s.notifyOnReviewModified
  }

  /** Subscribers of the paper wanting review mail and not yet notified. */
  function AwaitsReview(pid: nat): Tables.Subscriber -> bool {
    (s: Tables.Subscriber) => s.paperId == pid && s.notifyOnReview && !s.notifiedReview
  }

  /** Subscribers of the paper wanting decision mail and not yet notified. */
  function AwaitsDecision(pid: nat): Tables.Subscriber -> bool {
    (s: Tables.Subscriber) => s.paperId == pid && s.notifyOnDecision && !s.notifiedDecision
  }

  function ReviewSent(svc: Email.EmailService, p: Tables.Paper, reviews: seq<OpenReview.Review>, env: Env, email: string): bool {
    Email.SendReviewNotification(svc, email, p.title, p.openreviewId, p.venue, reviews, env.deliver)
  }

  function DecisionSent(svc: Email.EmailService, p: Tables.Paper, d: OpenReview.Decision,
                        reviews: seq<OpenReview.Review>, env: Env, email: string): bool {
    Email.SendDecisionNotification(svc, email, p.title, p.openreviewId, p.venue, d.decision, d.comment, reviews, env.deliver)
  }

  /** The review-mail loop over `ids`: a subscriber's `notified_review` is set
      when its mail is sent. */
  function MarkReviewed(subs: map<nat, Tables.Subscriber>, ids: seq<nat>, svc: Email.EmailService,
                        p: Tables.Paper, reviews: seq<OpenReview.Review>, env: Env): (r: map<nat, Tables.Subscriber>)
    ensures r.Keys == subs.Keys
    ensures forall k :: k in r ==> r[k] == subs[k] || r[k] == subs[k].(notifiedReview := true)
    decreases |ids|
  {
    if ids == [] then subs
    else
      var m := MarkReviewed(subs, ids[..|ids| - 1], svc, p, reviews, env);
      var k := ids[|ids| - 1];
      if k in m && ReviewSent(svc, p, reviews, env, m[k].email) then m[k := m[k].(notifiedReview := true)] else m
  }

  /** The decision-mail loop over `ids`, setting `notified_decision`. */
  function MarkDecided(subs: map<nat, Tables.Subscriber>, ids: seq<nat>, svc: Email.EmailService,
                       p: Tables.Paper, d: OpenReview.Decision, reviews: seq<OpenReview.Review>, env: Env): (r: map<nat, Tables.Subscriber>)
    ensures r.Keys == subs.Keys
    ensures forall k :: k in r ==> r[k] == subs[k] || r[k] == subs[k].(notifiedDecision := true)
    decreases |ids|
  {
    if ids == [] then subs
    else
      var m := MarkDecided(subs, ids[..|ids| - 1], svc, p, d, reviews, env);
      var k := ids[|ids| - 1];
      if k in m && DecisionSent(svc, p, d, reviews, env, m[k].email) then m[k := m[k].(notifiedDecision := true)] else m
  }

  /** After the review-mail loop a subscriber is flagged exactly when it was
      flagged before or it is listed and its mail was sent. */
  lemma {:induction false} MarkReviewedEffect(subs: map<nat, Tables.Subscriber>, ids: seq<nat>, svc: Email.EmailService,
                                              p: Tables.Paper, reviews: seq<OpenReview.Review>, env: Env, k: nat)
    requires k in subs
    ensures MarkReviewed(subs, ids, svc, p, reviews, env)[k]
      == if k in ids && ReviewSent(svc, p, reviews, env, subs[k].email) then subs[k].(notifiedReview := true) else subs[k]
    decreases |ids|
  {
    if ids != [] {
      var init := ids[..|ids| - 1];
      MarkReviewedEffect(subs, init, svc, p, reviews, env, k);
      assert ids == init + [ids[|ids| - 1]];
    }
  }

  lemma {:induction false} MarkDecidedEffect(subs: map<nat, Tables.Subscriber>, ids: seq<nat>, svc: Email.EmailService,
                                             p: Tables.Paper, d: OpenReview.Decision, reviews: seq<OpenReview.Review>, env: Env, k: nat)
    requires k in subs
    ensures MarkDecided(subs, ids, svc, p, d, reviews, env)[k]
      == if k in ids && DecisionSent(svc, p, d, reviews, env, subs[k].email) then subs[k].(notifiedDecision := true) else subs[k]
    decreases |ids|
  {
    if ids != [] {
      var init := ids[..|ids| - 1];
      MarkDecidedEffect(subs, init, svc, p, d, reviews, env, k);
      assert ids == init + [ids[|ids| - 1]];
    }
  }

  // ----- one paper -----

  /** `paper.status or ""` */
  function PreviousStatus(p: Tables.Paper): string {
    if p.status.Some? then p.status.value else ""
  }

  /** The reviews stored by the previous check. */
  function StoredReviews(p: Tables.Paper): seq<OpenReview.Review> {
    if p.reviewData.Some? then p.reviewData.value.reviews else []
  }

  /** Review mail goes out when the fetch found reviews and the paper was
      still pending. */
  predicate ReviewMailDue(p: Tables.Paper, report: OpenReview.StatusReport) {
    report.reviews != [] && PreviousStatus(p) == "pending"
  }

  /** The row after a successful check. */
  function Updated(p: Tables.Paper, report: OpenReview.StatusReport, now: int): (q: Tables.Paper)
    ensures q.id == p.id && q.openreviewId == p.openreviewId && q.title == p.title && q.venue == p.venue
    ensures q.submissionNumber == p.submissionNumber && q.username == p.username && q.password == p.password
    ensures q.status == Some(report.status) && q.lastChecked == Some(now)
    ensures q.reviewData == Some(Tables.ReviewData(report.reviews, |report.reviews|))
    ensures report.decision.Some? ==> q.decisionData == report.decision
    ensures report.decision.None? ==> q.decisionData == p.decisionData
  {
    p.(status := Some(report.status), lastChecked := Some(now),
       reviewData := Some(Tables.ReviewData(report.reviews, |report.reviews|)),
       decisionData := if report.decision.Some? then report.decision else p.decisionData)
  }

  /** The review-mail step of a successful check. */
  function ReviewStage(subs: map<nat, Tables.Subscriber>, bound: nat, pid: nat, p: Tables.Paper,
                       report: OpenReview.StatusReport, svc: Email.EmailService, env: Env): (r: map<nat, Tables.Subscriber>)
    ensures r.Keys == subs.Keys
  {
    if ReviewMailDue(p, report)
    then MarkReviewed(subs, Tables.SubscriberIdsWhere(subs, bound, AwaitsReview(pid)), svc, p, report.reviews, env)
    else subs
  }

  /** The decision-mail step of a successful check. */
  function DecisionStage(subs: map<nat, Tables.Subscriber>, bound: nat, pid: nat, p: Tables.Paper,
                         report: OpenReview.StatusReport, svc: Email.EmailService, env: Env): (r: map<nat, Tables.Subscriber>)
    ensures r.Keys == subs.Keys
  {
    if report.decision.Some?
    then MarkDecided(subs, Tables.SubscriberIdsWhere(subs, bound, AwaitsDecision(pid)),
                     svc, p, report.decision.value, report.reviews, env)
    else subs
  }

  /** A subscriber is flagged by the review step exactly when the mail was
      due, it was waiting for the mail, and its send succeeded. */
  lemma ReviewStageEffect(subs: map<nat, Tables.Subscriber>, bound: nat, pid: nat, p: Tables.Paper,
                          report: OpenReview.StatusReport, svc: Email.EmailService, env: Env, k: nat)
    requires k in subs
    ensures ReviewStage(subs, bound, pid, p, report, svc, env)[k]
      == if ReviewMailDue(p, report) && k < bound && AwaitsReview(pid)(subs[k]) && ReviewSent(svc, p, report.reviews, env, subs[k].email)
         then subs[k].(notifiedReview := true) else subs[k]
  {
    if ReviewMailDue(p, report) {
      MarkReviewedEffect(subs, Tables.SubscriberIdsWhere(subs, bound, AwaitsReview(pid)), svc, p, report.reviews, env, k);
    }
  }

  /** A subscriber is flagged by the decision step exactly when a decision
      was found, it was waiting for the mail, and its send succeeded. */
  lemma DecisionStageEffect(subs: map<nat, Tables.Subscriber>, bound: nat, pid: nat, p: Tables.Paper,
                            report: OpenReview.StatusReport, svc: Email.EmailService, env: Env, k: nat)
    requires k in subs
    ensures DecisionStage(subs, bound, pid, p, report, svc, env)[k]
      == if && report.decision.Some? && k < bound && AwaitsDecision(pid)(subs[k])
            && DecisionSent(svc, p, report.decision.value, report.reviews, env, subs[k].email)
         then subs[k].(notifiedDecision := true) else subs[k]
  {
    if report.decision.Some? {
      MarkDecidedEffect(subs, Tables.SubscriberIdsWhere(subs, bound, AwaitsDecision(pid)),
                        svc, p, report.decision.value, report.reviews, env, k);
    }
  }

  /** What one paper's check returns and leaves behind, with the modified
      reviews found and the subscribers told about them. */
  datatype Outcome = Outcome(
    hasDecision: bool,
    papers: map<nat, Tables.Paper>,
    subscribers: map<nat, Tables.Subscriber>,
    modified: seq<OpenReview.Review>,
    modifiedRecipients: seq<nat>)

  /** The check runs to its end: the fetch succeeded and no review counts as
      modified. */
  predicate CheckCompletes(p: Tables.Paper, env: Env) {
    && StatusOf(p, env).Success?
    && ModifiedReviews(StatusOf(p, env).value.reviews, StoredById(StoredReviews(p))) == []
  }

  /** `check_single_paper` as written. `bound` is the next subscriber id. When
      some review counts as modified, the query filters on
      `Subscriber.notify_on_review_modified`, which the mapped class does not
      declare: the AttributeError is caught by the function's own `except`,
      which returns False before the row or any subscriber was assigned. */
  function SingleCheck(papers: map<nat, Tables.Paper>, subs: map<nat, Tables.Subscriber>, bound: nat, pid: nat,
                       svc: Email.EmailService, env: Env): (r: Outcome)
    requires pid in papers
    ensures r.papers.Keys == papers.Keys && r.subscribers.Keys == subs.Keys
    ensures forall q :: q in papers && q != pid ==> r.papers[q] == papers[q]
    ensures r.modifiedRecipients == []
    ensures r.hasDecision <==> CheckCompletes(papers[pid], env) && StatusOf(papers[pid], env).value.hasDecision
    ensures !CheckCompletes(papers[pid], env) ==> r.papers == papers && r.subscribers == subs
    ensures CheckCompletes(papers[pid], env) ==> r.papers[pid] == Updated(papers[pid], StatusOf(papers[pid], env).value, env.now)
  {
    var p := papers[pid];
    match StatusOf(p, env)
    case Failure(_) => Outcome(false, papers, subs, [], [])
    case Success(report) =>
      var modified := ModifiedReviews(report.reviews, StoredById(StoredReviews(p)));
      if modified != [] then Outcome(false, papers, subs, modified, [])
      else
        var afterReviews := ReviewStage(subs, bound, pid, p, report, svc, env);
        Outcome(report.hasDecision, papers[pid := Updated(p, report, env.now)],
                DecisionStage(afterReviews, bound, pid, p, report, svc, env), [], [])
  }

  /** `check_single_paper` as evidently intended, with the column declared:
      the modified reviews are reported to the paper's opted-in subscribers
      and the check goes on. */
  function SingleCheckIntended(papers: map<nat, Tables.Paper>, subs: map<nat, Tables.Subscriber>, bound: nat, pid: nat,
                               svc: Email.EmailService, env: Env): (r: Outcome)
    requires pid in papers
    ensures r.papers.Keys == papers.Keys && r.subscribers.Keys == subs.Keys
    ensures forall q :: q in papers && q != pid ==> r.papers[q] == papers[q]
    ensures r.hasDecision <==> StatusOf(papers[pid], env).Success? && StatusOf(papers[pid], env).value.hasDecision
    ensures StatusOf(papers[pid], env).Failure? ==> r.papers == papers && r.subscribers == subs && r.modifiedRecipients == []
    ensures StatusOf(papers[pid], env).Success? ==> r.papers[pid] == Updated(papers[pid], StatusOf(papers[pid], env).value, env.now)
  {
    var p := papers[pid];
    match StatusOf(p, env)
    case Failure(_) => Outcome(false, papers, subs, [], [])
    case Success(report) =>
      var modified := ModifiedReviews(report.reviews, StoredById(StoredReviews(p)));
      var told := if modified != [] then Tables.SubscriberIdsWhere(subs, bound, WantsModified(pid)) else [];
      var afterReviews := ReviewStage(subs, bound, pid, p, report, svc, env);
      Outcome(report.hasDecision, papers[pid := Updated(p, report, env.now)],
              DecisionStage(afterReviews, bound, pid, p, report, svc, env), modified, told)
  }

  /** The code as written and as intended agree exactly when no review was
      modified; otherwise the written one returns False and changes nothing,
      where the intended one updates the row. */
  lemma SingleCheckAgrees(papers: map<nat, Tables.Paper>, subs: map<nat, Tables.Subscriber>, bound: nat, pid: nat,
                          svc: Email.EmailService, env: Env)
    requires pid in papers
    ensures var r := SingleCheck(papers, subs, bound, pid, svc, env);
      var i := SingleCheckIntended(papers, subs, bound, pid, svc, env);
      && (StatusOf(papers[pid], env).Failure? || CheckCompletes(papers[pid], env) ==> r == i)
      && (StatusOf(papers[pid], env).Success? && !CheckCompletes(papers[pid], env) ==>
            && r == Outcome(false, papers, subs, i.modified, [])
            && i.modified != [] && i.papers[pid] == Updated(papers[pid], StatusOf(papers[pid], env).value, env.now))
  {
  }

  /** `n` copies of `x`. */
  function Repeat<T>(n: nat, x: T): (r: seq<T>)
    ensures |r| == n && forall i :: 0 <= i < n ==> r[i] == x
  {
    if n == 0 then [] else Repeat(n - 1, x) + [x]
  }

  /** A check that finds a modified review leaves the row, and with it the
      stored reviews, as they were. Checking the paper again and again
      against the same answer fails the same way every time: nothing is
      updated and nobody is ever notified. */
  lemma {:induction false} ModifiedCheckStuck(papers: map<nat, Tables.Paper>, subs: map<nat, Tables.Subscriber>, bound: nat,
                                              pid: nat, svc: Email.EmailService, env: Env, n: nat)
    requires pid in papers && StatusOf(papers[pid], env).Success? && !CheckCompletes(papers[pid], env)
    ensures CheckEach(papers, subs, bound, Repeat(n, pid), svc, env) == Run(papers, subs, Repeat(n, pid), Repeat(n, false))
    decreases n
  {
    if n > 0 {
      var ids := Repeat(n, pid);
      assert ids[..n - 1] == Repeat(n - 1, pid);
      ModifiedCheckStuck(papers, subs, bound, pid, svc, env, n - 1);
    }
  }

  /** A check changes subscribers only in their two flags, only from unset to
      set, and only for subscribers of the checked paper. */
  lemma SingleCheckFlagsOnly(papers: map<nat, Tables.Paper>, subs: map<nat, Tables.Subscriber>, bound: nat, pid: nat,
                             svc: Email.EmailService, env: Env, k: nat)
    requires pid in papers && k in subs
    ensures var s := SingleCheck(papers, subs, bound, pid, svc, env).subscribers[k];
      && s.(notifiedReview := subs[k].notifiedReview, notifiedDecision := subs[k].notifiedDecision) == subs[k]
      && (subs[k].notifiedReview ==> s.notifiedReview)
      && (subs[k].notifiedDecision ==> s.notifiedDecision)
      && (subs[k].paperId != pid ==> s == subs[k])
  {
    var p := papers[pid];
    if CheckCompletes(p, env) {
      var st := StatusOf(p, env);
      ReviewStageEffect(subs, bound, pid, p, st.value, svc, env, k);
      var afterReviews := ReviewStage(subs, bound, pid, p, st.value, svc, env);
      DecisionStageEffect(afterReviews, bound, pid, p, st.value, svc, env, k);
    }
  }

  /** `notified_review` ends up set exactly when it was set before, or the
      check ran to its end, the review mail was due, the subscriber was
      waiting for it, and the send succeeded. */
  lemma ReviewFlagRule(papers: map<nat, Tables.Paper>, subs: map<nat, Tables.Subscriber>, bound: nat, pid: nat,
                       svc: Email.EmailService, env: Env, k: nat)
    requires pid in papers && k in subs
    ensures var st := StatusOf(papers[pid], env);
      SingleCheck(papers, subs, bound, pid, svc, env).subscribers[k].notifiedReview
      <==>
      || subs[k].notifiedReview
      || (&& CheckCompletes(papers[pid], env) && ReviewMailDue(papers[pid], st.value) && k < bound && AwaitsReview(pid)(subs[k])
          && ReviewSent(svc, papers[pid], st.value.reviews, env, subs[k].email))
  {
    var p := papers[pid];
    if CheckCompletes(p, env) {
      var st := StatusOf(p, env);
      ReviewStageEffect(subs, bound, pid, p, st.value, svc, env, k);
      var afterReviews := ReviewStage(subs, bound, pid, p, st.value, svc, env);
      DecisionStageEffect(afterReviews, bound, pid, p, st.value, svc, env, k);
    }
  }

  /** `notified_decision` ends up set exactly when it was set before, or the
      check ran to its end and found a decision, the subscriber was waiting
      for it, and the send succeeded. */
  lemma DecisionFlagRule(papers: map<nat, Tables.Paper>, subs: map<nat, Tables.Subscriber>, bound: nat, pid: nat,
                         svc: Email.EmailService, env: Env, k: nat)
    requires pid in papers && k in subs
    ensures var st := StatusOf(papers[pid], env);
      SingleCheck(papers, subs, bound, pid, svc, env).subscribers[k].notifiedDecision
      <==>
      || subs[k].notifiedDecision
      || (&& CheckCompletes(papers[pid], env) && st.value.decision.Some? && k < bound && AwaitsDecision(pid)(subs[k])
          && DecisionSent(svc, papers[pid], st.value.decision.value, st.value.reviews, env, subs[k].email))
  {
    var p := papers[pid];
    if CheckCompletes(p, env) {
      var st := StatusOf(p, env);
      ReviewStageEffect(subs, bound, pid, p, st.value, svc, env, k);
      var afterReviews := ReviewStage(subs, bound, pid, p, st.value, svc, env);
      DecisionStageEffect(afterReviews, bound, pid, p, st.value, svc, env, k);
    }
  }

  /** In the intended check, modification mail goes to the paper's
      `notify_on_review_modified` subscribers exactly when some fetched review
      counts as modified. */
  lemma ModifiedRecipientsRule(papers: map<nat, Tables.Paper>, subs: map<nat, Tables.Subscriber>, bound: nat, pid: nat,
                               svc: Email.EmailService, env: Env, k: nat)
    requires pid in papers
    ensures var r := SingleCheckIntended(papers, subs, bound, pid, svc, env);
      k in r.modifiedRecipients
      <==>
      && r.modified != []
      && k in subs && k < bound && subs[k].paperId == pid && subs[k].notifyOnReviewModified
  {
  }

  /** The modification scan of `check_single_paper`. */
  method FindModified(reviews: seq<OpenReview.Review>, stored: map<string, OpenReview.Review>)
    returns (modified: seq<OpenReview.Review>)
    ensures modified == ModifiedReviews(reviews, stored)
  {
    modified := [];
    var i := 0;
    while i < |reviews|
      invariant 0 <= i <= |reviews|
      invariant modified == ModifiedReviews(reviews[..i], stored)
    {
      assert reviews[..i + 1][..i] == reviews[..i];
      var review := reviews[i];
      if review.id in stored {
        var previous := stored[review.id];
        if MdateSet(previous.mdate) && MdateSet(review.mdate) && previous.mdate != review.mdate {
          modified := modified + [review];
        }
      }
      i := i + 1;
    }
    assert reviews[..|reviews|] == reviews;
  }

  /** Changing subscribers only in their flags keeps the tables well formed. */
  lemma FlagsKeepWellFormed(papers: map<nat, Tables.Paper>, subs: map<nat, Tables.Subscriber>,
                            subs': map<nat, Tables.Subscriber>, nextPaperId: nat, nextSubscriberId: nat)
    requires Tables.WellFormed(papers, subs, nextPaperId, nextSubscriberId)
    requires subs'.Keys == subs.Keys
    requires forall k :: k in subs' ==> subs'[k].id == subs[k].id && subs'[k].paperId == subs[k].paperId
    ensures Tables.WellFormed(papers, subs', nextPaperId, nextSubscriberId)
  {
  }

  /** The review-mail loop over the queried subscribers. */
  method NotifyReviewSubscribers(subs: map<nat, Tables.Subscriber>, ids: seq<nat>, svc: Email.EmailService, p: Tables.Paper,
                         reviews: seq<OpenReview.Review>, env: Env) returns (r: map<nat, Tables.Subscriber>)
    requires forall i :: 0 <= i < |ids| ==> ids[i] in subs
    ensures r == MarkReviewed(subs, ids, svc, p, reviews, env)
  {
    r := subs;
    var j := 0;
    while j < |ids|
      invariant 0 <= j <= |ids|
      invariant r == MarkReviewed(subs, ids[..j], svc, p, reviews, env)
    {
      assert ids[..j + 1][..j] == ids[..j];
      var k := ids[j];
      var s := r[k];
      var ok := Email.SendReviewNotification(svc, s.email, p.title, p.openreviewId, p.venue, reviews, env.deliver);
      if ok {
        r := r[k := s.(notifiedReview := true)];
      }
      j := j + 1;
    }
    assert ids[..|ids|] == ids;
  }

  /** The decision-mail loop over the queried subscribers. */
  method NotifyDecisionSubscribers(subs: map<nat, Tables.Subscriber>, ids: seq<nat>, svc: Email.EmailService, p: Tables.Paper,
                       d: OpenReview.Decision, reviews: seq<OpenReview.Review>, env: Env) returns (r: map<nat, Tables.Subscriber>)
    requires forall i :: 0 <= i < |ids| ==> ids[i] in subs
    ensures r == MarkDecided(subs, ids, svc, p, d, reviews, env)
  {
    r := subs;
    var j := 0;
    while j < |ids|
      invariant 0 <= j <= |ids|
      invariant r == MarkDecided(subs, ids[..j], svc, p, d, reviews, env)
    {
      assert ids[..j + 1][..j] == ids[..j];
      var k := ids[j];
      var s := r[k];
      var ok := Email.SendDecisionNotification(svc, s.email, p.title, p.openreviewId, p.venue,
                                               d.decision, d.comment, reviews, env.deliver);
      if ok {
        r := r[k := s.(notifiedDecision := true)];
      }
      j := j + 1;
    }
    assert ids[..|ids|] == ids;
  }

  /** The first step of `check_single_paper`: decrypt the stored
      credentials, then `check_paper_status` without suppressing errors. */
  method FetchStatus(p: Tables.Paper, env: Env) returns (r: Result<OpenReview.StatusReport, string>)
    ensures r == StatusOf(p, env)
  {
    var user := Crypto.DecryptValue(p.username, env.open);
    if user.Failure? {
      return Failure(user.error);
    }
    var pass := Crypto.DecryptValue(p.password, env.open);
    if pass.Failure? {
      return Failure(pass.error);
    }
    r := OpenReview.CheckPaperStatus(env.reviewNotes(p.openreviewId, user.value, pass.value),
                                     env.decisionNotes(p.openreviewId, user.value, pass.value), false);
  }

  /** A check keeps the tables well formed. */
  lemma SingleCheckWellFormed(papers: map<nat, Tables.Paper>, subs: map<nat, Tables.Subscriber>,
                              nextPaperId: nat, nextSubscriberId: nat, pid: nat, svc: Email.EmailService, env: Env)
    requires Tables.WellFormed(papers, subs, nextPaperId, nextSubscriberId) && pid in papers
    ensures var o := SingleCheck(papers, subs, nextSubscriberId, pid, svc, env);
      Tables.WellFormed(o.papers, o.subscribers, nextPaperId, nextSubscriberId)
  {
    var o := SingleCheck(papers, subs, nextSubscriberId, pid, svc, env);
    forall k | k in subs
      ensures o.subscribers[k].id == subs[k].id && o.subscribers[k].paperId == subs[k].paperId
    {
      SingleCheckFlagsOnly(papers, subs, nextSubscriberId, pid, svc, env, k);
    }
    FlagsKeepWellFormed(o.papers, subs, o.subscribers, nextPaperId, nextSubscriberId);
  }

  /** `check_single_paper` over the database as written: the status fetch,
      the modification scan, then either the AttributeError of the
      modified-review query or the row update and the two mail loops. */
  method CheckSinglePaper(db: Tables.Database, pid: nat, svc: Email.EmailService, env: Env)
    returns (hasDecision: bool)
    requires db.Valid() && pid in db.papers
    modifies db
    ensures var o := SingleCheck(old(db.papers), old(db.subscribers), db.nextSubscriberId, pid, svc, env);
      && hasDecision == o.hasDecision && db.papers == o.papers && db.subscribers == o.subscribers
    ensures db.config == old(db.config) && db.nextPaperId == old(db.nextPaperId) && db.nextSubscriberId == old(db.nextSubscriberId)
    ensures db.Valid()
  {
    SingleCheckWellFormed(db.papers, db.subscribers, db.nextPaperId, db.nextSubscriberId, pid, svc, env);
    var p := db.papers[pid];
    var status := FetchStatus(p, env);
    if status.Failure? {
      return false;
    }
    var modified := FindModified(status.value.reviews, StoredById(StoredReviews(p)));
    if modified != [] {
      // the query on the undeclared column raises; the except clause returns False
      return false;
    }
    var subscribers := ReportEffects(db.subscribers, db.nextSubscriberId, pid, p, status.value, svc, env);
    db.papers := db.papers[pid := Updated(p, status.value, env.now)];
    db.subscribers := subscribers;
    hasDecision := status.value.hasDecision;
  }

  /** The part of `check_single_paper` after a fetch without modified
      reviews: the subscribers after the review and decision mails. */
  method ReportEffects(subs: map<nat, Tables.Subscriber>, bound: nat, pid: nat, p: Tables.Paper,
                       report: OpenReview.StatusReport, svc: Email.EmailService, env: Env)
    returns (after: map<nat, Tables.Subscriber>)
    requires report.hasDecision <==> report.decision.Some?
    ensures after == DecisionStage(ReviewStage(subs, bound, pid, p, report, svc, env), bound, pid, p, report, svc, env)
  {
    var afterReviews := subs;
    if ReviewMailDue(p, report) {
      var ids := Tables.SubscriberIdsWhere(subs, bound, AwaitsReview(pid));
      afterReviews := NotifyReviewSubscribers(subs, ids, svc, p, report.reviews, env);
    }
    after := afterReviews;
    if report.hasDecision && report.decision.Some? {
      var ids := Tables.SubscriberIdsWhere(afterReviews, bound, AwaitsDecision(pid));
      after := NotifyDecisionSubscribers(afterReviews, ids, svc, p, report.decision.value, report.reviews, env);
    }
  }

  // ----- all papers -----

  /** The statuses still monitored: "pending", "reviewed", null or "". */
  predicate Monitored(p: Tables.Paper) {
    p.status.None? || p.status.value in {"pending", "reviewed", ""}
  }

  /** `paper.venue or "unknown"` */
  function VenueKey(p: Tables.Paper): (k: string)
    ensures k != ""
    ensures p.venue.None? || p.venue == Some("") ==> k == "unknown"
  {
    if p.venue.Some? && p.venue.value != "" then p.venue.value else "unknown"
  }

  /** The monitored rows among `ids`, in that order. */
  function MonitoredRows(papers: map<nat, Tables.Paper>, ids: seq<nat>): (r: seq<Tables.Paper>)
    requires forall i :: 0 <= i < |ids| ==> ids[i] in papers
    ensures |r| <= |ids|
    decreases |ids|
  {
    if ids == [] then []
    else
      var p := papers[ids[|ids| - 1]];
      MonitoredRows(papers, ids[..|ids| - 1]) + (if Monitored(p) then [p] else [])
  }

  lemma {:induction false} MonitoredRowsExactly(papers: map<nat, Tables.Paper>, ids: seq<nat>, q: Tables.Paper)
    requires forall i :: 0 <= i < |ids| ==> ids[i] in papers
    ensures q in MonitoredRows(papers, ids) <==> Monitored(q) && exists i :: 0 <= i < |ids| && papers[ids[i]] == q
    decreases |ids|
  {
    if ids != [] {
      var init := ids[..|ids| - 1];
      MonitoredRowsExactly(papers, init, q);
      if exists i :: 0 <= i < |init| && papers[init[i]] == q {
        var i :| 0 <= i < |init| && papers[init[i]] == q;
        assert ids[i] == init[i];
      }
      if exists i :: 0 <= i < |ids| && papers[ids[i]] == q {
        var i :| 0 <= i < |ids| && papers[ids[i]] == q;
        if i < |init| {
          assert init[i] == ids[i];
        }
      }
    }
  }

  /** The selection query: the monitored papers in ascending id order. */
  function MonitoredPapers(papers: map<nat, Tables.Paper>, bound: nat): (r: seq<Tables.Paper>)
  {
    MonitoredRows(papers, Tables.PaperIds(papers, bound))
  }

  /** Rows are stored under their own id. */
  predicate KeyedById(papers: map<nat, Tables.Paper>) {
    forall id :: id in papers ==> papers[id].id == id
  }

  /** Exactly the monitored papers are selected. */
  lemma SelectedExactly(papers: map<nat, Tables.Paper>, bound: nat, q: Tables.Paper)
    requires KeyedById(papers)
    ensures q in MonitoredPapers(papers, bound) <==> q.id in papers && q.id < bound && papers[q.id] == q && Monitored(q)
  {
    var ids := Tables.PaperIds(papers, bound);
    MonitoredRowsExactly(papers, ids, q);
    if q.id in papers && q.id < bound && papers[q.id] == q {
      var i :| 0 <= i < |ids| && ids[i] == q.id;
      assert papers[ids[i]] == q;
    }
  }

  /** The sort key `(number is None, number or 0)` compared as a tuple:
      numbered papers first, by number. */
  predicate NumberLess(a: Tables.Paper, b: Tables.Paper) {
    var na := a.submissionNumber.GetOr(0);
    var nb := b.submissionNumber.GetOr(0);
    (a.submissionNumber.Some? && b.submissionNumber.None?)
    || (a.submissionNumber.Some? == b.submissionNumber.Some? && na < nb)
  }

  lemma NumberLessStrict()
    ensures Sorting.StrictOrder(NumberLess)
  {
  }

  /** Equal keys are interchangeable, so the sort by this key is stable. */
  lemma NumberLessWeak()
    ensures Sorting.StrictWeakOrder(NumberLess)
  {
  }

  /** In a list sorted by the key, a paper without a number never comes
      before a numbered one, and numbers never decrease. */
  lemma NumberOrder(s: seq<Tables.Paper>, i: nat, j: nat)
    requires Sorting.SortedBy(s, NumberLess) && i < j < |s|
    ensures s[j].submissionNumber.Some? ==> s[i].submissionNumber.Some? && s[i].submissionNumber.value <= s[j].submissionNumber.value
  {
    assert !NumberLess(s[j], s[i]);
  }

  function IdsOf(rows: seq<Tables.Paper>): (r: seq<nat>)
    ensures |r| == |rows| && forall i :: 0 <= i < |rows| ==> r[i] == rows[i].id
  {
    seq(|rows|, i requires 0 <= i < |rows| => rows[i].id)
  }

  /** The venues in order of their first selected paper. */
  function Venues(papers: map<nat, Tables.Paper>, bound: nat): seq<string> {
    Grouping.Keys(MonitoredPapers(papers, bound), VenueKey)
  }

  /** A venue's checking order: its selected papers sorted by the key. */
  function VenueRows(papers: map<nat, Tables.Paper>, bound: nat, v: string): seq<Tables.Paper> {
    Sorting.Sort(Grouping.Group(MonitoredPapers(papers, bound), VenueKey, v), NumberLess)
  }

  /** Papers of a venue with the same submission key are checked in the order
      the query returned them, as Python's stable `list.sort` keeps them. */
  lemma VenueRowsStable(papers: map<nat, Tables.Paper>, bound: nat, v: string, q: Tables.Paper)
    ensures Sorting.TiedWith(VenueRows(papers, bound, v), q, NumberLess)
         == Sorting.TiedWith(Grouping.Group(MonitoredPapers(papers, bound), VenueKey, v), q, NumberLess)
  {
    NumberLessWeak();
    Sorting.SortStable(Grouping.Group(MonitoredPapers(papers, bound), VenueKey, v), q, NumberLess);
  }

  function Queues(papers: map<nat, Tables.Paper>, bound: nat): (r: seq<seq<nat>>)
    ensures |r| == |Venues(papers, bound)|
  {
    var venues := Venues(papers, bound);
    seq(|venues|, i requires 0 <= i < |venues| => IdsOf(VenueRows(papers, bound, venues[i])))
  }

  /** A paper is in a venue's queue exactly when it is selected and the venue
      is its own. */
  lemma {:induction false} VenueRowsExactly(papers: map<nat, Tables.Paper>, bound: nat, v: string, q: Tables.Paper)
    requires KeyedById(papers)
    ensures q in VenueRows(papers, bound, v)
      <==> q.id in papers && q.id < bound && papers[q.id] == q && Monitored(q) && VenueKey(q) == v
  {
    var selected := MonitoredPapers(papers, bound);
    NumberLessStrict();
    Sorting.SortSameElements(Grouping.Group(selected, VenueKey, v), NumberLess, q);
    Grouping.GroupExactly(selected, VenueKey, v, q);
    SelectedExactly(papers, bound, q);
  }

  /** Every selected paper is queued under exactly one venue: the venues are
      distinct, its own venue is listed, and it is in a queue exactly when
      that queue is its venue's. Each queue is ordered by the key. */
  lemma {:induction false} QueuesPartition(papers: map<nat, Tables.Paper>, bound: nat, id: nat)
    requires KeyedById(papers)
    ensures Grouping.Distinct(Venues(papers, bound))
    ensures id in papers && id < bound && Monitored(papers[id]) ==> VenueKey(papers[id]) in Venues(papers, bound)
    ensures forall i :: 0 <= i < |Queues(papers, bound)| ==>
      (id in Queues(papers, bound)[i]
       <==> id in papers && id < bound && Monitored(papers[id]) && VenueKey(papers[id]) == Venues(papers, bound)[i])
  {
    var selected := MonitoredPapers(papers, bound);
    var venues := Venues(papers, bound);
    Grouping.KeysExactly(selected, VenueKey);
    if id in papers && id < bound && Monitored(papers[id]) {
      SelectedExactly(papers, bound, papers[id]);
      var j :| 0 <= j < |selected| && selected[j] == papers[id];
      assert VenueKey(selected[j]) == VenueKey(papers[id]);
    }
    forall i | 0 <= i < |Queues(papers, bound)|
      ensures id in Queues(papers, bound)[i]
        <==> id in papers && id < bound && Monitored(papers[id]) && VenueKey(papers[id]) == venues[i]
    {
      var rows := VenueRows(papers, bound, venues[i]);
      assert Queues(papers, bound)[i] == IdsOf(rows);
      if id in IdsOf(rows) {
        var j :| 0 <= j < |rows| && IdsOf(rows)[j] == id;
        VenueRowsExactly(papers, bound, venues[i], rows[j]);
      }
      if id in papers && id < bound && Monitored(papers[id]) && VenueKey(papers[id]) == venues[i] {
        VenueRowsExactly(papers, bound, venues[i], papers[id]);
        var j :| 0 <= j < |rows| && rows[j] == papers[id];
        assert IdsOf(rows)[j] == id;
      }
    }
  }

  /** Each venue's rows are sorted by the key. */
  lemma VenueRowsSorted(papers: map<nat, Tables.Paper>, bound: nat, v: string)
    ensures Sorting.SortedBy(VenueRows(papers, bound, v), NumberLess)
  {
    NumberLessStrict();
    Sorting.SortCorrect(Grouping.Group(MonitoredPapers(papers, bound), VenueKey, v), NumberLess);
  }

  /** Queued ids name existing papers. */
  lemma QueuesInPapers(papers: map<nat, Tables.Paper>, bound: nat)
    requires KeyedById(papers)
    ensures forall i, j :: 0 <= i < |Queues(papers, bound)| && 0 <= j < |Queues(papers, bound)[i]| ==>
      Queues(papers, bound)[i][j] in papers
  {
    forall i, j | 0 <= i < |Queues(papers, bound)| && 0 <= j < |Queues(papers, bound)[i]|
      ensures Queues(papers, bound)[i][j] in papers
    {
      QueuesPartition(papers, bound, Queues(papers, bound)[i][j]);
    }
  }

  /** The state a run of checks leaves, the ids checked in order and what
      each check returned. */
  datatype Run = Run(
    papers: map<nat, Tables.Paper>,
    subscribers: map<nat, Tables.Subscriber>,
    checked: seq<nat>,
    decisions: seq<bool>)

  /** Checking `ids` one after the other. */
  function CheckEach(papers: map<nat, Tables.Paper>, subs: map<nat, Tables.Subscriber>, bound: nat, ids: seq<nat>,
                     svc: Email.EmailService, env: Env): (r: Run)
    requires forall i :: 0 <= i < |ids| ==> ids[i] in papers
    ensures r.papers.Keys == papers.Keys && r.subscribers.Keys == subs.Keys
    ensures r.checked == ids && |r.decisions| == |ids|
    decreases |ids|
  {
    if ids == [] then Run(papers, subs, [], [])
    else
      var before := CheckEach(papers, subs, bound, ids[..|ids| - 1], svc, env);
      var o := SingleCheck(before.papers, before.subscribers, bound, ids[|ids| - 1], svc, env);
      Run(o.papers, o.subscribers, before.checked + [ids[|ids| - 1]], before.decisions + [o.hasDecision])
  }

  /** One more paper extends the run by that paper's check. */
  lemma CheckEachStep(papers: map<nat, Tables.Paper>, subs: map<nat, Tables.Subscriber>, bound: nat, ids: seq<nat>,
                      i: nat, svc: Email.EmailService, env: Env)
    requires i < |ids| && forall i :: 0 <= i < |ids| ==> ids[i] in papers
    ensures var before := CheckEach(papers, subs, bound, ids[..i], svc, env);
      && ids[i] in before.papers
      && var o := SingleCheck(before.papers, before.subscribers, bound, ids[i], svc, env);
      CheckEach(papers, subs, bound, ids[..i + 1], svc, env)
        == Run(o.papers, o.subscribers, before.checked + [ids[i]], before.decisions + [o.hasDecision])
  {
    assert ids[..i + 1][..i] == ids[..i];
  }

  function Min(a: int, b: int): int {
    if a < b then a else b
  }

  /** One venue: the first five always, the rest only when one of the first
      five returned True. */
  function VenueRun(papers: map<nat, Tables.Paper>, subs: map<nat, Tables.Subscriber>, bound: nat, queue: seq<nat>,
                    svc: Email.EmailService, env: Env): (r: Run)
    requires forall i :: 0 <= i < |queue| ==> queue[i] in papers
    ensures r.papers.Keys == papers.Keys && r.subscribers.Keys == subs.Keys
    ensures |r.decisions| == |r.checked| && Min(5, |queue|) <= |r.decisions|
    ensures var top := Min(5, |queue|);
      r.checked == queue[..top] + (if true in r.decisions[..top] then queue[top..] else [])
  {
    var top := CheckEach(papers, subs, bound, queue[..Min(5, |queue|)], svc, env);
    if true in top.decisions && |queue| > 5 then
      var rest := CheckEach(top.papers, top.subscribers, bound, queue[5..], svc, env);
      assert (top.decisions + rest.decisions)[..5] == top.decisions;
      Run(rest.papers, rest.subscribers, top.checked + rest.checked, top.decisions + rest.decisions)
    else
      assert top.decisions[..Min(5, |queue|)] == top.decisions;
      top
  }

  /** The venues one after the other. */
  function RunQueues(papers: map<nat, Tables.Paper>, subs: map<nat, Tables.Subscriber>, bound: nat, queues: seq<seq<nat>>,
                     svc: Email.EmailService, env: Env): (r: Run)
    requires forall i, j :: 0 <= i < |queues| && 0 <= j < |queues[i]| ==> queues[i][j] in papers
    ensures r.papers.Keys == papers.Keys && r.subscribers.Keys == subs.Keys
    decreases |queues|
  {
    if queues == [] then Run(papers, subs, [], [])
    else
      var before := RunQueues(papers, subs, bound, queues[..|queues| - 1], svc, env);
      var v := VenueRun(before.papers, before.subscribers, bound, queues[|queues| - 1], svc, env);
      Run(v.papers, v.subscribers, before.checked + v.checked, before.decisions + v.decisions)
  }

  /** One more venue extends the run by that venue's run. */
  lemma RunQueuesStep(papers: map<nat, Tables.Paper>, subs: map<nat, Tables.Subscriber>, bound: nat, queues: seq<seq<nat>>,
                      i: nat, svc: Email.EmailService, env: Env)
    requires i < |queues|
    requires forall i, j :: 0 <= i < |queues| && 0 <= j < |queues[i]| ==> queues[i][j] in papers
    ensures var before := RunQueues(papers, subs, bound, queues[..i], svc, env);
      && (forall j :: 0 <= j < |queues[i]| ==> queues[i][j] in before.papers)
      && var v := VenueRun(before.papers, before.subscribers, bound, queues[i], svc, env);
      RunQueues(papers, subs, bound, queues[..i + 1], svc, env)
        == Run(v.papers, v.subscribers, before.checked + v.checked, before.decisions + v.decisions)
  {
    assert queues[..i + 1][..i] == queues[..i];
  }

  /** `check_all_papers` with a working e-mail service. */
  function CheckAll(papers: map<nat, Tables.Paper>, subs: map<nat, Tables.Subscriber>, nextPaperId: nat, nextSubscriberId: nat,
                    svc: Email.EmailService, env: Env): (r: Run)
    requires KeyedById(papers)
    ensures r.papers.Keys == papers.Keys && r.subscribers.Keys == subs.Keys
  {
    QueuesInPapers(papers, nextPaperId);
    RunQueues(papers, subs, nextSubscriberId, Queues(papers, nextPaperId), svc, env)
  }

  /** `check_single_paper` over `ids` in order, collecting what each returned. */
  method CheckList(db: Tables.Database, ids: seq<nat>, svc: Email.EmailService, env: Env) returns (anyDecision: bool)
    requires db.Valid() && forall i :: 0 <= i < |ids| ==> ids[i] in db.papers
    modifies db
    ensures var r := CheckEach(old(db.papers), old(db.subscribers), db.nextSubscriberId, ids, svc, env);
      db.papers == r.papers && db.subscribers == r.subscribers && anyDecision == (true in r.decisions)
    ensures db.config == old(db.config) && db.nextPaperId == old(db.nextPaperId) && db.nextSubscriberId == old(db.nextSubscriberId)
    ensures db.Valid()
  {
    anyDecision := false;
    var i := 0;
    while i < |ids|
      invariant 0 <= i <= |ids|
      invariant db.config == old(db.config) && db.nextPaperId == old(db.nextPaperId) && db.nextSubscriberId == old(db.nextSubscriberId)
      invariant db.Valid()
      invariant var r := CheckEach(old(db.papers), old(db.subscribers), db.nextSubscriberId, ids[..i], svc, env);
        db.papers == r.papers && db.subscribers == r.subscribers && anyDecision == (true in r.decisions)
    {
      CheckEachStep(old(db.papers), old(db.subscribers), db.nextSubscriberId, ids, i, svc, env);
      var hasDecision := CheckSinglePaper(db, ids[i], svc, env);
      if hasDecision {
        anyDecision := true;
      }
      i := i + 1;
    }
    assert ids[..|ids|] == ids;
  }

  /** One venue's queue: the first five, then the rest when any of them
      returned True. */
  method CheckVenue(db: Tables.Database, queue: seq<nat>, svc: Email.EmailService, env: Env) returns (checked: seq<nat>)
    requires db.Valid() && forall i :: 0 <= i < |queue| ==> queue[i] in db.papers
    modifies db
    ensures var r := VenueRun(old(db.papers), old(db.subscribers), db.nextSubscriberId, queue, svc, env);
      db.papers == r.papers && db.subscribers == r.subscribers && checked == r.checked
    ensures db.config == old(db.config) && db.nextPaperId == old(db.nextPaperId) && db.nextSubscriberId == old(db.nextSubscriberId)
    ensures db.Valid()
  {
    var top := queue[..Min(5, |queue|)];
    var remaining := queue[Min(5, |queue|)..];
    var anyDecision := CheckList(db, top, svc, env);
    checked := top;
    if anyDecision && remaining != [] {
      var _ := CheckList(db, remaining, svc, env);
      checked := top + remaining;
    }
  }

  /** The venue loop of `check_all_papers`: each venue's list is sorted by
      the key and checked under the top-five rule. */
  method CheckQueues(db: Tables.Database, venues: seq<string>, groups: map<string, seq<Tables.Paper>>,
                     ghost queues: seq<seq<nat>>, svc: Email.EmailService, env: Env) returns (checked: seq<nat>)
    requires db.Valid() && |queues| == |venues|
    requires forall i :: 0 <= i < |venues| ==> venues[i] in groups
    requires forall i :: 0 <= i < |venues| ==> queues[i] == IdsOf(Sorting.Sort(groups[venues[i]], NumberLess))
    requires forall i, j :: 0 <= i < |queues| && 0 <= j < |queues[i]| ==> queues[i][j] in db.papers
    modifies db
    ensures var r := RunQueues(old(db.papers), old(db.subscribers), db.nextSubscriberId, queues, svc, env);
      db.papers == r.papers && db.subscribers == r.subscribers && checked == r.checked
    ensures db.config == old(db.config) && db.nextPaperId == old(db.nextPaperId) && db.nextSubscriberId == old(db.nextSubscriberId)
    ensures db.Valid()
  {
    checked := [];
    var i := 0;
    while i < |venues|
      invariant 0 <= i <= |venues|
      invariant db.config == old(db.config) && db.nextPaperId == old(db.nextPaperId) && db.nextSubscriberId == old(db.nextSubscriberId)
      invariant db.Valid() && db.papers.Keys == old(db.papers).Keys
      invariant var r := RunQueues(old(db.papers), old(db.subscribers), db.nextSubscriberId, queues[..i], svc, env);
        db.papers == r.papers && db.subscribers == r.subscribers && checked == r.checked
    {
      RunQueuesStep(old(db.papers), old(db.subscribers), db.nextSubscriberId, queues, i, svc, env);
      var queue := IdsOf(Sorting.Sort(groups[venues[i]], NumberLess));
      assert queue == queues[i];
      var done := CheckVenue(db, queue, svc, env);
      checked := checked + done;
      i := i + 1;
    }
    assert queues[..|queues|] == queues;
  }

  /** `check_all_papers`: select, group by venue, then check each venue's
      queue; a failure to build the e-mail service abandons the run before
      any paper is checked. Returns the ids checked, in order. */
  method CheckAllPapers(db: Tables.Database, svc: Result<Email.EmailService, Http.Raised>, env: Env) returns (checked: seq<nat>)
    requires db.Valid()
    modifies db
    ensures svc.Failure? ==> checked == [] && db.papers == old(db.papers) && db.subscribers == old(db.subscribers)
    ensures svc.Success? ==>
      var r := CheckAll(old(db.papers), old(db.subscribers), old(db.nextPaperId), old(db.nextSubscriberId), svc.value, env);
      db.papers == r.papers && db.subscribers == r.subscribers && checked == r.checked
    ensures db.config == old(db.config) && db.nextPaperId == old(db.nextPaperId) && db.nextSubscriberId == old(db.nextSubscriberId)
    ensures db.Valid()
  {
    var ids := Tables.PaperIds(db.papers, db.nextPaperId);
    var selected := MonitoredRows(db.papers, ids);
    var venues, groups := Grouping.GroupBy(selected, VenueKey);
    if svc.Failure? {
      return [];
    }
    assert KeyedById(db.papers);
    ghost var queues := Queues(db.papers, db.nextPaperId);
    QueuesInPapers(db.papers, db.nextPaperId);
    forall i | 0 <= i < |venues|
      ensures venues[i] in groups && queues[i] == IdsOf(Sorting.Sort(groups[venues[i]], NumberLess))
    {
      assert venues[i] in set k | k in venues;
    }
    checked := CheckQueues(db, venues, groups, queues, svc.value, env);
  }
}
