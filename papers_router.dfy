/** The public paper endpoints: reading a paper id out of a URL, previewing a
    paper, subscribing to it, and reading its stored status. */
module PapersRouter {
  import opened Wrappers
  import Text
  import Json
  import OpenReview
  import Tables
  import Http

  // ----- extract_paper_id -----

  const InvalidId: string := "Invalid OpenReview URL or ID"

  predicate IdChar(c: char) {
    ('a' <= c <= 'z') || ('A' <= c <= 'Z') || ('0' <= c <= '9') || c == '_' || c == '-'
  }

  /** `re.match(r'^[a-zA-Z0-9_-]+$', s)`: one or more id characters, then the end
      of the text or a newline that ends it, since `$` also matches there. */
  predicate BareId(s: string) {
    var body := if s != [] && s[|s| - 1] == '\n' then s[..|s| - 1] else s;
    body != [] && forall i :: 0 <= i < |body| ==> IdChar(body[i])
  }

  /** `[?&]id=([^&]+)` matches at `i`. */
  predicate MatchAt(url: string, i: nat) {
    i + 4 < |url| && (url[i] == '?' || url[i] == '&') && url[i + 1..i + 4] == "id=" && url[i + 4] != '&'
  }

  /** `re.search`: the leftmost match at or after `from`. */
  function FirstMatch(url: string, from: nat): (r: Option<nat>)
    ensures r.Some? ==> from <= r.value && MatchAt(url, r.value)
    ensures r.Some? ==> forall j :: from <= j < r.value ==> !MatchAt(url, j)
    ensures r.None? ==> forall j :: from <= j ==> !MatchAt(url, j)
    decreases |url| - from
  {
    if from >= |url| then None
    else if MatchAt(url, from) then Some(from)
    else FirstMatch(url, from + 1)
  }

  /** The group of the match at `i`: the run of characters other than `&`
      after `id=`, as long as it goes. */
  function GroupAt(url: string, i: nat): (id: string)
    requires MatchAt(url, i)
    ensures id != [] && forall k :: 0 <= k < |id| ==> id[k] != '&'
    ensures i + 4 + |id| <= |url| && url[i + 4..i + 4 + |id|] == id
    ensures i + 4 + |id| == |url| || url[i + 4 + |id|] == '&'
  {
    var id := Text.BeforeFirst(url[i + 4..], '&');
    assert url[i + 4..][0] == url[i + 4];
    assert url[i + 4..][..|id|] == url[i + 4..i + 4 + |id|];
    id
  }

  /** `extract_paper_id`: on an openreview.net URL the `id` query parameter at
      its leftmost match; otherwise the text itself when it is a bare id; and
      `ValueError` in every other case. */
  function ExtractPaperId(url: string): (r: Result<string, string>)
    ensures r.Success? ==> r.value != []
    ensures r.Failure? ==> r.error == InvalidId
    ensures r.Failure? <==>
      !BareId(url) && (!Text.Contains(url, "openreview.net") || forall j :: !MatchAt(url, j))
    ensures !Text.Contains(url, "openreview.net") ==> (r.Success? <==> BareId(url)) && (r.Success? ==> r.value == url)
  {
    var m := FirstMatch(url, 0);
    if Text.Contains(url, "openreview.net") && m.Some? then Success(GroupAt(url, m.value))
    else if BareId(url) then Success(url)
    else Failure(InvalidId)
  }

  /** On an openreview.net URL the id is the group of the leftmost match. */
  lemma ExtractLeftmost(url: string, i: nat)
    requires Text.Contains(url, "openreview.net") && MatchAt(url, i)
    requires forall j: nat :: j < i ==> !MatchAt(url, j)
    ensures ExtractPaperId(url) == Success(GroupAt(url, i))
  {
    var m := FirstMatch(url, 0);
    assert m.Some?;
    if m.value < i {
    } else if m.value > i {
    }
  }

  /** A URL `base?id=x`, whose base mentions openreview.net and has no `?` or
      `&`, gives back `x` when `x` has no `&`. */
  lemma {:induction false} ExtractFromQuery(base: string, id: string)
    requires Text.Contains(base, "openreview.net")
    requires forall k :: 0 <= k < |base| ==> base[k] != '?' && base[k] != '&'
    requires id != [] && forall k :: 0 <= k < |id| ==> id[k] != '&'
    ensures ExtractPaperId(base + "?id=" + id) == Success(id)
  {
    var url := base + "?id=" + id;
    Text.ContainsInPrefix(base, "?id=" + id, "openreview.net");
    assert url == base + ("?id=" + id);
    var i := |base|;
    assert url[i] == '?' && url[i + 1..i + 4] == "id=" && url[i + 4] == id[0];
    assert MatchAt(url, i);
    forall j: nat | j < i ensures !MatchAt(url, j) {
      assert url[j] == base[j];
    }
    ExtractLeftmost(url, i);
    var g := GroupAt(url, i);
    assert url[i + 4..] == id;
    assert g == id;
  }

  const SiteRoot: string := "https://openreview.net/"

  /** The site root names openreview.net and holds no `?` or `&`. */
  lemma SiteRootClean()
    ensures Text.Contains(SiteRoot, "openreview.net")
    ensures forall k :: 0 <= k < |SiteRoot| ==> SiteRoot[k] != '?' && SiteRoot[k] != '&'
  {
    assert SiteRoot[8..22] == "openreview.net";
    Text.ContainsAt(SiteRoot, "openreview.net", 8);
  }

  /** A page of the site, reached by a path without `?` or `&`, gives back the
      id of its `?id=` query. */
  lemma {:induction false} ExtractSitePage(path: string, id: string)
    requires forall k :: 0 <= k < |path| ==> path[k] != '?' && path[k] != '&'
    requires id != [] && forall k :: 0 <= k < |id| ==> id[k] != '&'
    ensures ExtractPaperId(SiteRoot + path + "?id=" + id) == Success(id)
  {
    SiteRootClean();
    var base := SiteRoot + path;
    Text.ContainsInPrefix(SiteRoot, path, "openreview.net");
    forall k | 0 <= k < |base| ensures base[k] != '?' && base[k] != '&' {
      if k < |SiteRoot| {
        assert base[k] == SiteRoot[k];
      } else {
        assert base[k] == path[k - |SiteRoot|];
      }
    }
    ExtractFromQuery(base, id);
  }

  /** The forum link the application shows. */
  lemma ExtractForumUrl(id: string)
    requires id != [] && forall k :: 0 <= k < |id| ==> id[k] != '&'
    ensures ExtractPaperId("https://openreview.net/forum?id=" + id) == Success(id)
  {
    ExtractSitePage("forum", id);
    assert SiteRoot + "forum" + "?id=" == "https://openreview.net/forum?id=";
  }

  /** Text without some character of `sub` does not contain `sub`. */
  lemma {:induction false} AbsentCharAvoids(s: string, sub: string, c: char)
    requires c in sub && forall k :: 0 <= k < |s| ==> s[k] != c
    ensures !Text.Contains(s, sub)
    decreases |s|
  {
    if s != [] {
      assert forall k :: 0 <= k < |s| - 1 ==> s[1..][k] == s[k + 1];
      AbsentCharAvoids(s[1..], sub, c);
    }
    if |sub| <= |s| {
      var j :| 0 <= j < |sub| && sub[j] == c;
      assert s[..|sub|][j] == s[j];
    }
  }

  /** Text without a `.` cannot mention openreview.net. */
  lemma NoDotAvoidsDomain(s: string)
    requires forall k :: 0 <= k < |s| ==> s[k] != '.'
    ensures !Text.Contains(s, "openreview.net")
  {
    assert "openreview.net"[10] == '.';
    AbsentCharAvoids(s, "openreview.net", '.');
  }

  /** A bare id comes back unchanged, and so does one followed by a final
      newline, which `$` lets through. */
  lemma BareIdAccepted(id: string)
    requires id != [] && forall k :: 0 <= k < |id| ==> IdChar(id[k])
    ensures ExtractPaperId(id) == Success(id)
    ensures ExtractPaperId(id + "\n") == Success(id + "\n")
  {
    NoDotAvoidsDomain(id);
    var t := id + "\n";
    assert t[..|t| - 1] == id;
    assert forall k :: 0 <= k < |t| ==> t[k] != '.' by {
      forall k | 0 <= k < |t| ensures t[k] != '.' {
        if k < |id| {
          assert t[k] == id[k];
        }
      }
    }
    NoDotAvoidsDomain(t);
  }

  // ----- preview_paper -----

  datatype PreviewRequest = PreviewRequest(openreviewUrl: string, username: Option<string>, password: Option<string>)

  /** `PaperPreview`. */
  datatype Preview = Preview(
    openreviewId: string,
    submissionNumber: Option<int>,
    title: Option<string>,
    venue: Option<string>,
    authors: seq<string>)

  const PrivateDetail: string :=
    "This paper appears to be private or requires OpenReview login. "
    + "Please enter your OpenReview username and password, or use a public paper URL."
  const FetchFailedDetail: string :=
    "Failed to fetch paper info. Please check the OpenReview URL or ID, "
    + "and provide credentials if the paper is private."

  /** The OpenReviewService logs in only when both credentials are non-empty. */
  function Login(username: Option<string>, password: Option<string>): (r: Option<(string, string)>)
    ensures r.Some? <==> username.Some? && username.value != "" && password.Some? && password.value != ""
    ensures r.Some? ==> r.value == (username.value, password.value)
  {
    if username.Some? && username.value != "" && password.Some? && password.value != ""
    then Some((username.value, password.value))
    else None
  }

  /** The exception text names a permission problem. */
  predicate LooksPrivate(text: string) {
    || Text.Contains(text, "ForbiddenError")
    || Text.Contains(Text.Lower(text), "permission")
    || Text.Contains(text, "status': 403")
  }

  /** The response to an exception raised while fetching or packing the preview. */
  function FetchError(text: string): (e: Http.HttpError)
    ensures e.status == 403 || e.status == 400
    ensures e.status == 403 <==> LooksPrivate(text)
    ensures e.detail == (if LooksPrivate(text) then PrivateDetail else FetchFailedDetail)
    ensures e.retryAfter.None?
  {
    if LooksPrivate(text) then Http.Error(403, PrivateDetail) else Http.Error(400, FetchFailedDetail)
  }

  /** A field declared `Optional[str]`: null or a string; anything else fails validation. */
  function OptionalText(j: Json.Json): (r: Option<Option<string>>)
    ensures r.Some? <==> j.Null? || j.Str?
    ensures j.Str? ==> r == Some(Some(j.s))
  {
    match j
    case Null => Some(None)
    case Str(s) => Some(Some(s))
    case _ => None
  }

  /** A field declared `List[str]`. */
  function TextList(items: seq<Json.Json>): (r: Option<seq<string>>)
    ensures r.Some? <==> forall i :: 0 <= i < |items| ==> items[i].Str?
    ensures r.Some? ==> |r.value| == |items| && forall i :: 0 <= i < |items| ==> r.value[i] == items[i].s
    decreases |items|
  {
    if items == [] then Some([])
    else if !items[0].Str? then None
    else
      var rest := TextList(items[1..]);
      if rest.None? then
        assert !(forall i :: 1 <= i < |items| ==> items[i].Str?) by {
          var k :| 0 <= k < |items| - 1 && !items[1..][k].Str?;
          assert items[k + 1] == items[1..][k];
        }
        None
      else Some([items[0].s] + rest.value)
  }

  /** Building `PaperPreview` from the fetched information. */
  function PreviewOf(id: string, info: OpenReview.PaperInfo): (r: Option<Preview>)
    ensures r.Some? <==> OptionalText(info.title).Some? && OptionalText(info.venue).Some? && TextList(info.authors).Some?
    ensures r.Some? ==> r.value.openreviewId == id && r.value.submissionNumber == info.submissionNumber
    ensures r.Some? ==> r.value.title == (if info.title.Str? then Some(info.title.s) else None)
    ensures r.Some? ==> r.value.venue == (if info.venue.Str? then Some(info.venue.s) else None)
    ensures r.Some? ==>
      |r.value.authors| == |info.authors| && forall i :: 0 <= i < |info.authors| ==> r.value.authors[i] == info.authors[i].s
  {
    var title := OptionalText(info.title);
    var venue := OptionalText(info.venue);
    var authors := TextList(info.authors);
    if title.None? || venue.None? || authors.None? then None
    else Some(Preview(id, info.submissionNumber, title.value, venue.value, authors.value))
  }

  /** The text of the validation error a malformed preview raises. */
  const PreviewValidationError: string := "validation error for PaperPreview"

  /** `preview_paper`. `fetch` is the OpenReview client's `get_note`, given the
      id and the login, with the exception text as `Failure`. */
  function PreviewPaper(req: PreviewRequest, fetch: (string, Option<(string, string)>) -> Result<OpenReview.Note, string>)
    : (r: Result<Preview, Http.HttpError>)
    ensures ExtractPaperId(req.openreviewUrl).Failure? ==> r == Failure(Http.Error(400, InvalidId))
    ensures r.Failure? ==> r.error.status == 400 || r.error.status == 403
    ensures ExtractPaperId(req.openreviewUrl).Success? ==>
      var got := fetch(ExtractPaperId(req.openreviewUrl).value, Login(req.username, req.password));
      got.Failure? ==> r == Failure(FetchError(got.error))
    ensures r.Success? ==> r.value.openreviewId == ExtractPaperId(req.openreviewUrl).value && |r.value.authors| <= 5
    ensures r.Success? ==>
      var info := OpenReview.GetPaperInfo(fetch(ExtractPaperId(req.openreviewUrl).value, Login(req.username, req.password)));
      info.Success? && PreviewOf(ExtractPaperId(req.openreviewUrl).value, info.value) == Some(r.value)
  {
    var id := ExtractPaperId(req.openreviewUrl);
    if id.Failure? then Failure(Http.Error(400, id.error))
    else
      var info := OpenReview.GetPaperInfo(fetch(id.value, Login(req.username, req.password)));
      if info.Failure? then Failure(FetchError(info.error))
      else
        var preview := PreviewOf(id.value, info.value);
        if preview.None? then Failure(FetchError(PreviewValidationError))
        else Success(preview.value)
  }

  // ----- add_paper -----

  /** `PaperCreate`; the verification code it carries is not read. */
  datatype PaperCreate = PaperCreate(
    openreviewId: string,
    submissionNumber: Option<int>,
    title: string,
    venue: string,
    email: string,
    username: Option<string>,
    password: Option<string>,
    notifyOnReview: bool,
    notifyOnReviewModified: bool,
    notifyOnDecision: bool)

  const AlreadySubscribed: string := "This email is already subscribed to this paper"

  /** Python's `str` of an optional value inside an f-string. */
  function TextOrNone(t: Option<string>): string {
    if t.Some? then t.value else "None"
  }

  function NumberOrNone(n: Option<int>): string {
    if n.Some? then Text.IntToString(n.value) else "None"
  }

  function SubscribedTo(paperId: nat, email: string): Tables.Subscriber -> bool {
    (s: Tables.Subscriber) => s.paperId == paperId && s.email == email
  }

  /** `filter(paper_id == …, email == …).first()` */
  function Subscription(subs: map<nat, Tables.Subscriber>, bound: nat, paperId: nat, email: string): (r: Option<nat>)
    ensures r.Some? ==> r.value in subs && subs[r.value].paperId == paperId && subs[r.value].email == email
    ensures r.None? <==> forall id :: id in subs && id < bound ==> !(subs[id].paperId == paperId && subs[id].email == email)
  {
    var hits := Tables.SubscriberIdsWhere(subs, bound, SubscribedTo(paperId, email));
    if hits == [] then None else Some(hits[0])
  }

  /** The subscriber row `add_paper` inserts; the `notified_*` columns take their defaults. */
  function NewSubscriber(id: nat, paperId: nat, data: PaperCreate): (s: Tables.Subscriber)
    ensures s.id == id && s.paperId == paperId && s.email == data.email
    ensures !s.notifiedReview && !s.notifiedDecision
    ensures s.notifyOnReview == data.notifyOnReview && s.notifyOnDecision == data.notifyOnDecision
    ensures s.notifyOnReviewModified == data.notifyOnReviewModified
  {
    Tables.Subscriber(id, paperId, data.email, data.notifyOnReview, data.notifyOnReviewModified,
                      data.notifyOnDecision, false, false)
  }

  /** The paper row `add_paper` inserts: status `pending`, credentials as given. */
  function NewPaper(id: nat, data: PaperCreate): (p: Tables.Paper)
    ensures p.id == id && p.openreviewId == data.openreviewId && p.status == Some("pending")
    ensures p.title == Some(data.title) && p.venue == Some(data.venue) && p.submissionNumber == data.submissionNumber
    ensures p.reviewData.None? && p.lastChecked.None?
  {
    Tables.Paper(id, data.openreviewId, data.submissionNumber, Some(data.title), Some(data.venue),
                 data.username, data.password, Some("pending"), None, None, None)
  }

  /** The tables after a handler's writes, and its message. */
  datatype Written = Written(rows: Tables.Rows, message: string)

  /** `add_paper`: adds a subscriber to the paper with that OpenReview id,
      creating the paper first when there is none, and refuses an e-mail
      already subscribed to it. */
  function AddPaperTo(t: Tables.Rows, data: PaperCreate): (r: Result<Written, Http.HttpError>)
    ensures r.Failure? ==> r.error == Http.Error(400, AlreadySubscribed)
    ensures r.Success? ==> r.value.rows.nextSubscriberId == t.nextSubscriberId + 1
    ensures r.Success? ==> t.nextSubscriberId in r.value.rows.subscribers
    ensures r.Success? ==> r.value.rows.subscribers == t.subscribers[t.nextSubscriberId := r.value.rows.subscribers[t.nextSubscriberId]]
    ensures r.Success? ==>
      var s := r.value.rows.subscribers[t.nextSubscriberId];
      s.paperId in r.value.rows.papers && r.value.rows.papers[s.paperId].openreviewId == data.openreviewId
      && s.email == data.email && !s.notifiedReview && !s.notifiedDecision
    ensures r.Success? ==>
      var s := r.value.rows.subscribers[t.nextSubscriberId];
      s == NewSubscriber(t.nextSubscriberId, s.paperId, data)
    ensures Tables.FindPaper(t.papers, t.nextPaperId, data.openreviewId).Some? ==>
      r.Success? ==> r.value.rows.papers == t.papers && r.value.rows.nextPaperId == t.nextPaperId
    ensures Tables.FindPaper(t.papers, t.nextPaperId, data.openreviewId).None? ==>
      r.Success? && r.value.rows.papers == t.papers[t.nextPaperId := NewPaper(t.nextPaperId, data)]
      && r.value.rows.nextPaperId == t.nextPaperId + 1
  {
    var existing := Tables.FindPaper(t.papers, t.nextPaperId, data.openreviewId);
    if existing.Some? then
      var pid := existing.value;
      if Subscription(t.subscribers, t.nextSubscriberId, pid, data.email).Some? then
        Failure(Http.Error(400, AlreadySubscribed))
      else
        var sub := NewSubscriber(t.nextSubscriberId, pid, data);
        Success(Written(
          Tables.Rows(t.papers, t.subscribers[t.nextSubscriberId := sub], t.nextPaperId, t.nextSubscriberId + 1),
          "Successfully subscribed to: " + TextOrNone(t.papers[pid].title)))
    else
      var pid := t.nextPaperId;
      var sub := NewSubscriber(t.nextSubscriberId, pid, data);
      Success(Written(
        Tables.Rows(t.papers[pid := NewPaper(pid, data)], t.subscribers[t.nextSubscriberId := sub],
                    pid + 1, t.nextSubscriberId + 1),
        "Successfully added: " + data.title + " (Submission #" + NumberOrNone(data.submissionNumber) + ")"))
  }

  /** `add_paper` as written. Both branches that do not refuse build
      `Subscriber(..., notify_on_review_modified=...)`, a keyword the mapped
      class does not declare, so SQLAlchemy's constructor raises TypeError.
      Nothing is committed, the session is closed, and the server answers 500;
      the paper a new id had flushed is discarded with it. */
  function AddPaperAsWritten(t: Tables.Rows, data: PaperCreate): (r: Http.HttpError)
    ensures r == Http.Error(400, AlreadySubscribed) <==> AddPaperTo(t, data).Failure?
    ensures r != Http.Error(400, AlreadySubscribed) ==> r == Http.InternalError
  {
    var existing := Tables.FindPaper(t.papers, t.nextPaperId, data.openreviewId);
    if existing.Some? && Subscription(t.subscribers, t.nextSubscriberId, existing.value, data.email).Some? then
      Http.Error(400, AlreadySubscribed)
    else
      Http.InternalError
  }

  /** The refusal happens exactly when the paper is known and the e-mail is
      already subscribed to it. */
  lemma AddPaperRefuses(t: Tables.Rows, data: PaperCreate)
    ensures AddPaperTo(t, data).Failure? <==>
      var existing := Tables.FindPaper(t.papers, t.nextPaperId, data.openreviewId);
      existing.Some? && Subscription(t.subscribers, t.nextSubscriberId, existing.value, data.email).Some?
  {
  }

  /** Adding keeps the tables well formed. */
  lemma AddPaperWellFormed(t: Tables.Rows, data: PaperCreate)
    requires Tables.RowsWellFormed(t)
    ensures AddPaperTo(t, data).Success? ==> Tables.RowsWellFormed(AddPaperTo(t, data).value.rows)
  {
    var existing := Tables.FindPaper(t.papers, t.nextPaperId, data.openreviewId);
    var sid := t.nextSubscriberId;
    if existing.Some? {
      Tables.InsertSubscriberWellFormed(t.papers, t.subscribers, t.nextPaperId, sid,
                                        NewSubscriber(sid, existing.value, data));
    } else {
      var pid := t.nextPaperId;
      var papers := t.papers[pid := NewPaper(pid, data)];
      Tables.InsertPaperWellFormed(t.papers, t.subscribers, pid, sid, NewPaper(pid, data));
      Tables.InsertSubscriberWellFormed(papers, t.subscribers, pid + 1, sid, NewSubscriber(sid, pid, data));
    }
  }

  /** Subscribing twice with the same data is refused the second time. */
  lemma {:induction false} AddPaperTwice(t: Tables.Rows, data: PaperCreate)
    requires Tables.RowsWellFormed(t)
    requires AddPaperTo(t, data).Success?
    ensures AddPaperTo(AddPaperTo(t, data).value.rows, data) == Failure(Http.Error(400, AlreadySubscribed))
  {
    var u := AddPaperTo(t, data).value.rows;
    AddPaperWellFormed(t, data);
    var sid := t.nextSubscriberId;
    var pid := u.subscribers[sid].paperId;
    var found := Tables.FindPaper(u.papers, u.nextPaperId, data.openreviewId);
    assert pid < u.nextPaperId;
    assert found.Some?;
    assert found.value == pid;
    assert sid < u.nextSubscriberId;
    assert SubscribedTo(pid, data.email)(u.subscribers[sid]);
    assert Subscription(u.subscribers, u.nextSubscriberId, pid, data.email).Some?;
  }

  // ----- get_paper_status -----

  /** The fields of the `PaperStatusResponse` the handler builds, a class
      `schemas.py` does not define. */
  datatype StatusView = StatusView(
    id: nat,
    title: Option<string>,
    status: Option<string>,
    venue: Option<string>,
    reviewData: Option<Tables.ReviewData>)

  const PaperNotFound: string := "Paper not found"

  /** `get_paper_status`: the stored status fields of the paper, or 404. */
  function GetPaperStatus(papers: map<nat, Tables.Paper>, paperId: int): (r: Result<StatusView, Http.HttpError>)
    ensures r.Failure? <==> paperId < 0 || paperId as nat !in papers
    ensures r.Failure? ==> r.error == Http.Error(404, PaperNotFound)
    ensures r.Success? ==>
      var p := papers[paperId as nat];
      r.value.id == p.id && r.value.title == p.title && r.value.status == p.status && r.value.venue == p.venue
      && r.value.reviewData == p.reviewData
  {
    if paperId < 0 || paperId as nat !in papers then Failure(Http.Error(404, PaperNotFound))
    else
      var p := papers[paperId as nat];
      Success(StatusView(p.id, p.title, p.status, p.venue, p.reviewData))
  }

  /** `add_paper` against the database as written: the two existence
      queries, then the refusal or the TypeError of the subscriber's
      constructor. The database is left as it was. */
  method AddPaper(db: Tables.Database, data: PaperCreate) returns (r: Result<string, Http.HttpError>)
    requires db.Valid()
    ensures r == Failure(AddPaperAsWritten(db.Snapshot(), data))
  {
    var existing := Tables.FindPaper(db.papers, db.nextPaperId, data.openreviewId);
    if existing.Some? && Subscription(db.subscribers, db.nextSubscriberId, existing.value, data.email).Some? {
      return Failure(Http.Error(400, AlreadySubscribed));
    }
    // `Subscriber(...)` raises before anything is committed
    r := Failure(Http.InternalError);
  }

  /** `add_paper` against the database as evidently intended, with the
      column declared. */
  method AddPaperIntended(db: Tables.Database, data: PaperCreate) returns (r: Result<string, Http.HttpError>)
    requires db.Valid()
    modifies db
    ensures db.Valid()
    ensures db.config == old(db.config)
    ensures AddPaperTo(old(db.Snapshot()), data).Failure? ==>
      r == Failure(AddPaperTo(old(db.Snapshot()), data).error) && db.Snapshot() == old(db.Snapshot())
    ensures AddPaperTo(old(db.Snapshot()), data).Success? ==>
      r == Success(AddPaperTo(old(db.Snapshot()), data).value.message)
      && db.Snapshot() == AddPaperTo(old(db.Snapshot()), data).value.rows
  {
    ghost var before := db.Snapshot();
    AddPaperWellFormed(before, data);
    var existing := Tables.FindPaper(db.papers, db.nextPaperId, data.openreviewId);
    var pid: nat;
    var message: string;
    if existing.Some? {
      pid := existing.value;
      if Subscription(db.subscribers, db.nextSubscriberId, pid, data.email).Some? {
        return Failure(Http.Error(400, AlreadySubscribed));
      }
      message := "Successfully subscribed to: " + TextOrNone(db.papers[pid].title);
    } else {
      pid := db.nextPaperId;
      db.papers := db.papers[pid := NewPaper(pid, data)];
      db.nextPaperId := pid + 1;
      message := "Successfully added: " + data.title + " (Submission #"
        + NumberOrNone(data.submissionNumber) + ")";
    }
    var sid := db.nextSubscriberId;
    db.subscribers := db.subscribers[sid := NewSubscriber(sid, pid, data)];
    db.nextSubscriberId := sid + 1;
    r := Success(message);
  }
}
