/** The administrator endpoints: login throttling, the paper table, the
    stored configuration and the test e-mail. */
module AdminRouter {
  import opened Wrappers
  import Text
  import Crypto
  import Email
  import Tables
  import Sorting
  import AppSettings
  import Http
  import Scheduler
  import RateLimit

  // ----- _get_client_ip -----

  /** `_get_client_ip`: the first entry of a non-empty `X-Forwarded-For`,
      trimmed; else the client's host; else `unknown`. */
  function ClientIp(forwarded: Option<string>, clientHost: Option<string>): (ip: string)
    ensures forwarded.None? || forwarded.value == "" ==> ip == clientHost.GetOr("unknown")
    ensures forwarded.Some? && forwarded.value != "" ==> |ip| <= |forwarded.value|
  {
    if forwarded.Some? && forwarded.value != "" then Text.Trim(Text.BeforeFirst(forwarded.value, ','))
    else clientHost.GetOr("unknown")
  }

  /** From a non-empty header the address has no comma and no surrounding
      blanks, and it starts the header once the header's leading blanks are gone. */
  lemma ClientIpFromHeader(header: string, clientHost: Option<string>)
    requires header != ""
    ensures var ip := ClientIp(Some(header), clientHost);
      && (forall k :: 0 <= k < |ip| ==> ip[k] != ',')
      && Text.Trim(ip) == ip
      && Text.StartsWith(Text.TrimStart(header), ip)
  {
    ClientIpHasNoComma(header, clientHost);
    ClientIpIsTrimmed(header, clientHost);
    ClientIpStartsHeader(header, clientHost);
  }

  lemma ClientIpHasNoComma(header: string, clientHost: Option<string>)
    requires header != ""
    ensures var ip := ClientIp(Some(header), clientHost);
      forall k :: 0 <= k < |ip| ==> ip[k] != ','
  {
    Text.TrimAvoids(Text.BeforeFirst(header, ','), ',');
  }

  lemma ClientIpIsTrimmed(header: string, clientHost: Option<string>)
    requires header != ""
    ensures var ip := ClientIp(Some(header), clientHost);
      Text.Trim(ip) == ip
  {
    var ip := Text.Trim(Text.BeforeFirst(header, ','));
    assert ClientIp(Some(header), clientHost) == ip;
    Text.TrimNoSpaceEnds(ip);
  }

  lemma ClientIpStartsHeader(header: string, clientHost: Option<string>)
    requires header != ""
    ensures var ip := ClientIp(Some(header), clientHost);
      Text.StartsWith(Text.TrimStart(header), ip)
  {
    Text.PrefixTrimmed(header, Text.BeforeFirst(header, ','));
  }

  /** The header `first,rest` gives `first` trimmed. */
  lemma {:induction false} ClientIpFirstEntry(first: string, rest: string, clientHost: Option<string>)
    requires forall k :: 0 <= k < |first| ==> first[k] != ','
    ensures ClientIp(Some(first + "," + rest), clientHost) == Text.Trim(first)
  {
    var header := first + "," + rest;
    BeforeFirstOf(first, rest);
  }

  lemma {:induction false} BeforeFirstOf(first: string, rest: string)
    requires forall k :: 0 <= k < |first| ==> first[k] != ','
    ensures Text.BeforeFirst(first + "," + rest, ',') == first
    decreases |first|
  {
    if first != [] {
      BeforeFirstOf(first[1..], rest);
      assert (first + "," + rest)[1..] == first[1..] + "," + rest;
    }
  }

  // ----- admin_login -----

  const IncorrectPassword: string := "Incorrect password"

  function TooMany(retryAfter: int): Http.HttpError {
    Http.HttpError(429, "Too many login attempts. Try again in " + Text.IntToString(retryAfter) + "s.",
                   Some(Text.IntToString(retryAfter)))
  }

  /** The outcome of one login: the response and the limiter's new entries. */
  datatype LoginOutcome = LoginOutcome(result: Result<string, Http.HttpError>, attempts: map<string, seq<int>>)

  /** `admin_login` on a limiter with these limits: block check first, then
      the password, which `passwordOk` stands for; `token` is the issued token. */
  function Login(attempts: map<string, seq<int>>, maxAttempts: int, windowSeconds: int, ip: string, now: int,
                 passwordOk: bool, token: string): (o: LoginOutcome)
    ensures o.result.Success? ==> o.result.value == token
    ensures o.result.Failure? ==> o.result.error.status == 429 || o.result.error == Http.Error(401, IncorrectPassword)
    ensures o.result.Failure? && o.result.error.status == 429 ==> o.result.error.retryAfter.Some?
    ensures forall k :: k != ip ==> RateLimit.Entries(o.attempts, k) == RateLimit.Entries(attempts, k)
  {
    var enabled := maxAttempts > 0 && windowSeconds > 0;
    var cutoff := now - windowSeconds;
    var checked := if enabled then RateLimit.AfterCheck(attempts, ip, cutoff) else attempts;
    if enabled && |RateLimit.Entries(checked, ip)| >= maxAttempts then
      var entries := RateLimit.Entries(checked, ip);
      LoginOutcome(Failure(TooMany(RateLimit.RetryAfter(windowSeconds, now, entries[0]))), checked)
    else if !passwordOk then
      LoginOutcome(Failure(Http.Error(401, IncorrectPassword)),
                   if enabled then RateLimit.AfterAdd(checked, ip, cutoff, now) else checked)
    else
      LoginOutcome(Success(token), if enabled then RateLimit.AfterReset(checked, ip) else checked)
  }

  /** A blocked address gets 429 with a `Retry-After` of at least one second,
      exactly when the window holds `maxAttempts` attempts; the password is
      not looked at and no attempt is recorded. */
  lemma LoginBlocked(attempts: map<string, seq<int>>, maxAttempts: int, windowSeconds: int, ip: string, now: int,
                     passwordOk: bool, token: string)
    ensures var o := Login(attempts, maxAttempts, windowSeconds, ip, now, passwordOk, token);
      var kept := RateLimit.Pruned(RateLimit.Entries(attempts, ip), now - windowSeconds);
      var blocked := maxAttempts > 0 && windowSeconds > 0 && |kept| >= maxAttempts;
      && (o.result.Failure? && o.result.error.status == 429 <==> blocked)
      && (blocked ==> o.result == Failure(TooMany(RateLimit.RetryAfter(windowSeconds, now, kept[0]))))
      && (blocked ==> RateLimit.Entries(o.attempts, ip) == kept)
      && (blocked ==> Login(attempts, maxAttempts, windowSeconds, ip, now, !passwordOk, token) == o)
  {
  }

  /** A wrong password on an address that is not blocked records exactly one
      attempt, at `now`, and answers 401. */
  lemma LoginWrongPassword(attempts: map<string, seq<int>>, maxAttempts: int, windowSeconds: int, ip: string, now: int,
                           token: string)
    requires maxAttempts > 0 && windowSeconds > 0
    requires |RateLimit.Pruned(RateLimit.Entries(attempts, ip), now - windowSeconds)| < maxAttempts
    ensures var o := Login(attempts, maxAttempts, windowSeconds, ip, now, false, token);
      && o.result == Failure(Http.Error(401, IncorrectPassword))
      && RateLimit.Entries(o.attempts, ip) == RateLimit.Pruned(RateLimit.Entries(attempts, ip), now - windowSeconds) + [now]
  {
    RateLimit.PrunedIdempotent(RateLimit.Entries(attempts, ip), now - windowSeconds);
  }

  /** A correct password on an address that is not blocked issues the token
      and forgets the address's attempts. */
  lemma LoginSucceeds(attempts: map<string, seq<int>>, maxAttempts: int, windowSeconds: int, ip: string, now: int,
                      token: string)
    requires maxAttempts > 0 && windowSeconds > 0
    requires |RateLimit.Pruned(RateLimit.Entries(attempts, ip), now - windowSeconds)| < maxAttempts
    ensures var o := Login(attempts, maxAttempts, windowSeconds, ip, now, true, token);
      o.result == Success(token) && ip !in o.attempts
  {
  }

  /** With throttling off, every login is judged by its password alone and
      nothing is recorded. */
  lemma LoginUnthrottled(attempts: map<string, seq<int>>, maxAttempts: int, windowSeconds: int, ip: string, now: int,
                         passwordOk: bool, token: string)
    requires maxAttempts <= 0 || windowSeconds <= 0
    ensures var o := Login(attempts, maxAttempts, windowSeconds, ip, now, passwordOk, token);
      o.attempts == attempts && (o.result.Success? <==> passwordOk)
  {
  }

  /** `admin_login` against the module's limiter. */
  method AdminLogin(limiter: RateLimit.RateLimiter, forwarded: Option<string>, clientHost: Option<string>,
                    passwordOk: bool, token: string, now: int) returns (r: Result<string, Http.HttpError>)
    modifies limiter
    ensures var o := Login(old(limiter.attempts), limiter.maxAttempts, limiter.windowSeconds,
                           ClientIp(forwarded, clientHost), now, passwordOk, token);
      r == o.result && limiter.attempts == o.attempts
  {
    var ip := ClientIp(forwarded, clientHost);
    var blocked, retryAfter := limiter.IsBlocked(ip, now);
    if blocked {
      return Failure(TooMany(retryAfter));
    }
    if !passwordOk {
      limiter.AddAttempt(ip, now);
      return Failure(Http.Error(401, IncorrectPassword));
    }
    limiter.Reset(ip);
    r := Success(token);
  }

  // ----- the paper table -----

  const PaperNotFound: string := "Paper not found"

  /** `PaperResponse`; its `status` must be text. */
  datatype PaperView = PaperView(
    id: nat,
    openreviewId: string,
    submissionNumber: Option<int>,
    title: Option<string>,
    venue: Option<string>,
    status: string,
    lastChecked: Option<int>,
    subscriberCount: Option<nat>,
    notifiedReview: Option<bool>,
    notifiedDecision: Option<bool>)

  /** `PaperUpdate`. */
  datatype PaperUpdate = PaperUpdate(title: Option<string>, venue: Option<string>, status: Option<string>, submissionNumber: Option<int>)

  /** The four assignments of `update_paper`. */
  function Patched(p: Tables.Paper, u: PaperUpdate): (q: Tables.Paper)
    ensures q.title == (if u.title.Some? then u.title else p.title)
    ensures q.venue == (if u.venue.Some? then u.venue else p.venue)
    ensures q.status == (if u.status.Some? then u.status else p.status)
    ensures q.submissionNumber == (if u.submissionNumber.Some? then u.submissionNumber else p.submissionNumber)
    ensures q.id == p.id && q.openreviewId == p.openreviewId && q.username == p.username && q.password == p.password
    ensures q.lastChecked == p.lastChecked && q.reviewData == p.reviewData && q.decisionData == p.decisionData
  {
    p.(title := if u.title.Some? then u.title else p.title,
       venue := if u.venue.Some? then u.venue else p.venue,
       status := if u.status.Some? then u.status else p.status,
       submissionNumber := if u.submissionNumber.Some? then u.submissionNumber else p.submissionNumber)
  }

  /** Applying the same patch twice is applying it once, and the empty patch
      changes nothing. */
  lemma PatchedIdempotent(p: Tables.Paper, u: PaperUpdate)
    ensures Patched(Patched(p, u), u) == Patched(p, u)
    ensures Patched(p, PaperUpdate(None, None, None, None)) == p
  {
  }

  /** The response body for a paper; `None` when its status is null, which
      fails validation. */
  function ViewOf(p: Tables.Paper, count: Option<nat>, notifiedReview: Option<bool>, notifiedDecision: Option<bool>)
    : (v: Option<PaperView>)
    ensures v.Some? <==> p.status.Some?
    ensures v.Some? ==> (v.value.id == p.id && v.value.status == p.status.value && v.value.venue == p.venue
      && v.value.submissionNumber == p.submissionNumber && v.value.title == p.title)
  {
    if p.status.None? then None
    else Some(PaperView(p.id, p.openreviewId, p.submissionNumber, p.title, p.venue, p.status.value, p.lastChecked,
                        count, notifiedReview, notifiedDecision))
  }

  /** A handler's effect on the tables together with its response. */
  datatype Handled<T> = Handled(rows: Tables.Rows, response: Result<T, Http.HttpError>)

  /** `update_paper`: 404 for an unknown id; otherwise the patch is committed
      and the response carries the subscriber count. */
  function UpdatePaperRows(t: Tables.Rows, paperId: int, u: PaperUpdate): (r: Handled<PaperView>)
    ensures paperId < 0 || paperId as nat !in t.papers ==> r == Handled(t, Failure(Http.Error(404, PaperNotFound)))
    ensures paperId >= 0 && paperId as nat in t.papers ==>
      && r.rows == t.(papers := t.papers[paperId as nat := Patched(t.papers[paperId as nat], u)])
      && (r.response.Success? <==> r.rows.papers[paperId as nat].status.Some?)
      && (r.response.Failure? ==> r.response.error == Http.InternalError)
      && (r.response.Success? ==>
            r.response.value.subscriberCount == Some(Tables.SubscriberCount(t.subscribers, t.nextSubscriberId, paperId as nat)))
  {
    if paperId < 0 || paperId as nat !in t.papers then Handled(t, Failure(Http.Error(404, PaperNotFound)))
    else
      var id := paperId as nat;
      var q := Patched(t.papers[id], u);
      var rows := t.(papers := t.papers[id := q]);
      var view := ViewOf(q, Some(Tables.SubscriberCount(t.subscribers, t.nextSubscriberId, id)), None, None);
      Handled(rows, if view.Some? then Success(view.value) else Failure(Http.InternalError))
  }

  /** A patch keeps the tables well formed: it never touches the OpenReview id. */
  lemma UpdatePaperWellFormed(t: Tables.Rows, paperId: int, u: PaperUpdate)
    requires Tables.RowsWellFormed(t)
    ensures Tables.RowsWellFormed(UpdatePaperRows(t, paperId, u).rows)
  {
  }

  /** `update_paper` against the database. */
  method UpdatePaper(db: Tables.Database, paperId: int, u: PaperUpdate) returns (r: Result<PaperView, Http.HttpError>)
    modifies db
    ensures db.config == old(db.config)
    ensures db.Snapshot() == UpdatePaperRows(old(db.Snapshot()), paperId, u).rows
    ensures r == UpdatePaperRows(old(db.Snapshot()), paperId, u).response
  {
    if paperId < 0 || paperId as nat !in db.papers {
      return Failure(Http.Error(404, PaperNotFound));
    }
    var id := paperId as nat;
    var p := db.papers[id];
    if u.title.Some? {
      p := p.(title := u.title);
    }
    if u.venue.Some? {
      p := p.(venue := u.venue);
    }
    if u.status.Some? {
      p := p.(status := u.status);
    }
    if u.submissionNumber.Some? {
      p := p.(submissionNumber := u.submissionNumber);
    }
    db.papers := db.papers[id := p];
    var count := Tables.SubscriberCount(db.subscribers, db.nextSubscriberId, id);
    var view := ViewOf(p, Some(count), None, None);
    if view.None? {
      return Failure(Http.InternalError);
    }
    r := Success(view.value);
  }

  /** Deleting a paper removes its subscribers with it. */
  function WithoutPaper(t: Tables.Rows, paperId: nat): (u: Tables.Rows)
    ensures u.papers == t.papers - {paperId}
    ensures forall id :: id in u.subscribers <==> id in t.subscribers && t.subscribers[id].paperId != paperId
    ensures forall id :: id in u.subscribers ==> u.subscribers[id] == t.subscribers[id]
    ensures u.nextPaperId == t.nextPaperId && u.nextSubscriberId == t.nextSubscriberId
  {
    t.(papers := t.papers - {paperId},
       subscribers := map id | id in t.subscribers && t.subscribers[id].paperId != paperId :: t.subscribers[id])
  }

  lemma WithoutPaperWellFormed(t: Tables.Rows, paperId: nat)
    requires Tables.RowsWellFormed(t)
    ensures Tables.RowsWellFormed(WithoutPaper(t, paperId))
  {
  }

  const PaperDeleted: string := "Paper deleted successfully"

  /** `delete_paper`: 404 and no change for an unknown id. */
  method DeletePaper(db: Tables.Database, paperId: int) returns (r: Result<string, Http.HttpError>)
    modifies db
    ensures db.config == old(db.config)
    ensures paperId < 0 || paperId as nat !in old(db.papers) ==>
      r == Failure(Http.Error(404, PaperNotFound)) && db.Snapshot() == old(db.Snapshot())
    ensures paperId >= 0 && paperId as nat in old(db.papers) ==>
      r == Success(PaperDeleted) && db.Snapshot() == WithoutPaper(old(db.Snapshot()), paperId as nat)
  {
    if paperId < 0 || paperId as nat !in db.papers {
      return Failure(Http.Error(404, PaperNotFound));
    }
    var id := paperId as nat;
    db.subscribers := map sid | sid in db.subscribers && db.subscribers[sid].paperId != id :: db.subscribers[sid];
    db.papers := db.papers - {id};
    r := Success(PaperDeleted);
  }

  // ----- get_all_papers -----

  /** `ORDER BY venue, submission_number`, ties in id order. */
  predicate PaperLess(a: Tables.Paper, b: Tables.Paper) {
    || Tables.NullableTextLess(a.venue, b.venue)
    || (a.venue == b.venue && Tables.NullableIntLess(a.submissionNumber, b.submissionNumber))
    || (a.venue == b.venue && a.submissionNumber == b.submissionNumber && a.id < b.id)
  }

  lemma PaperLessStrict()
    ensures Sorting.StrictOrder(PaperLess)
  {
    forall a: Tables.Paper ensures !PaperLess(a, a) {
      Tables.NullableTextLessStrict(a.venue, a.venue, a.venue);
    }
    forall a: Tables.Paper, b: Tables.Paper, c: Tables.Paper | PaperLess(a, b) && PaperLess(b, c)
      ensures PaperLess(a, c)
    {
      Tables.NullableTextLessStrict(a.venue, b.venue, c.venue);
      Tables.NullableTextLessStrict(b.venue, a.venue, c.venue);
      Tables.NullableTextLessStrict(a.venue, c.venue, b.venue);
    }
  }

  function RowsOf(papers: map<nat, Tables.Paper>, ids: seq<nat>): (r: seq<Tables.Paper>)
    requires forall i :: 0 <= i < |ids| ==> ids[i] in papers
    ensures |r| == |ids| && forall i :: 0 <= i < |ids| ==> r[i] == papers[ids[i]]
  {
    seq(|ids|, i requires 0 <= i < |ids| => papers[ids[i]])
  }

  /** The papers in listing order. */
  function Listed(papers: map<nat, Tables.Paper>, nextPaperId: nat): seq<Tables.Paper> {
    Sorting.Sort(RowsOf(papers, Tables.PaperIds(papers, nextPaperId)), PaperLess)
  }

  /** Some subscriber of the paper has the flag set. */
  function AnyNotified(subs: map<nat, Tables.Subscriber>, bound: nat, paperId: nat, decision: bool): (r: bool)
    ensures r <==> exists id :: id in subs && id < bound && subs[id].paperId == paperId
                     && (if decision then subs[id].notifiedDecision else subs[id].notifiedReview)
  {
    var keep := (s: Tables.Subscriber) => s.paperId == paperId && (if decision then s.notifiedDecision else s.notifiedReview);
    var hits := Tables.SubscriberIdsWhere(subs, bound, keep);
    if hits != [] then
      assert hits[0] in hits;
      true
    else false
  }

  /** One listing row. */
  function ListingRow(p: Tables.Paper, subs: map<nat, Tables.Subscriber>, bound: nat): Option<PaperView> {
    ViewOf(p, Some(Tables.SubscriberCount(subs, bound, p.id)),
           Some(AnyNotified(subs, bound, p.id, false)), Some(AnyNotified(subs, bound, p.id, true)))
  }

  /** `get_all_papers`; a paper with a null status makes the response fail. */
  function Listing(papers: map<nat, Tables.Paper>, subs: map<nat, Tables.Subscriber>, nextPaperId: nat, nextSubscriberId: nat)
    : (r: Result<seq<PaperView>, Http.HttpError>)
    ensures r.Failure? <==> exists i :: 0 <= i < |Listed(papers, nextPaperId)| && Listed(papers, nextPaperId)[i].status.None?
    ensures r.Failure? ==> r.error == Http.InternalError
    ensures r.Success? ==> |r.value| == |Listed(papers, nextPaperId)|
    ensures r.Success? ==>
      forall i :: 0 <= i < |r.value| ==> Some(r.value[i]) == ListingRow(Listed(papers, nextPaperId)[i], subs, nextSubscriberId)
  {
    var rows := Listed(papers, nextPaperId);
    if exists i :: 0 <= i < |rows| && rows[i].status.None? then Failure(Http.InternalError)
    else Success(seq(|rows|, i requires 0 <= i < |rows| => ListingRow(rows[i], subs, nextSubscriberId).value))
  }

  /** The papers in listing order are the table's papers, each once. */
  lemma {:induction false} ListedCovers(papers: map<nat, Tables.Paper>, nextPaperId: nat, id: nat)
    requires forall k :: k in papers ==> papers[k].id == k && k < nextPaperId
    ensures var sorted := Listed(papers, nextPaperId);
      id in papers <==> exists i :: 0 <= i < |sorted| && sorted[i].id == id
  {
    var ids := Tables.PaperIds(papers, nextPaperId);
    var rows := RowsOf(papers, ids);
    var sorted := Listed(papers, nextPaperId);
    PaperLessStrict();
    if id in papers {
      assert id in ids;
      var k :| 0 <= k < |ids| && ids[k] == id;
      assert rows[k] in rows;
      Sorting.SortSameElements(rows, PaperLess, rows[k]);
      var i :| 0 <= i < |sorted| && sorted[i] == rows[k];
      assert sorted[i].id == id;
    }
    if exists i :: 0 <= i < |sorted| && sorted[i].id == id {
      var i :| 0 <= i < |sorted| && sorted[i].id == id;
      assert sorted[i] in sorted;
      Sorting.SortSameElements(rows, PaperLess, sorted[i]);
      var k :| 0 <= k < |rows| && rows[k] == sorted[i];
      assert ids[k] in papers;
    }
  }

  /** The listing holds a row for every paper and for nothing else. */
  lemma {:induction false} ListingCovers(papers: map<nat, Tables.Paper>, subs: map<nat, Tables.Subscriber>,
                                         nextPaperId: nat, nextSubscriberId: nat, id: nat)
    requires Tables.WellFormed(papers, subs, nextPaperId, nextSubscriberId)
    requires Listing(papers, subs, nextPaperId, nextSubscriberId).Success?
    ensures var v := Listing(papers, subs, nextPaperId, nextSubscriberId).value;
      id in papers <==> exists i :: 0 <= i < |v| && v[i].id == id
  {
    var v := Listing(papers, subs, nextPaperId, nextSubscriberId).value;
    var sorted := Listed(papers, nextPaperId);
    ListedCovers(papers, nextPaperId, id);
    assert forall i :: 0 <= i < |v| ==> v[i].id == sorted[i].id by {
      forall i | 0 <= i < |v| ensures v[i].id == sorted[i].id {
        assert Some(v[i]) == ListingRow(sorted[i], subs, nextSubscriberId);
      }
    }
  }

  /** The listing is ordered by venue, null first, and within a venue by
      submission number, null first. */
  lemma {:induction false} ListingOrdered(papers: map<nat, Tables.Paper>, subs: map<nat, Tables.Subscriber>,
                                          nextPaperId: nat, nextSubscriberId: nat)
    requires Listing(papers, subs, nextPaperId, nextSubscriberId).Success?
    ensures var v := Listing(papers, subs, nextPaperId, nextSubscriberId).value;
      && (forall i, j :: 0 <= i < j < |v| ==> !Tables.NullableTextLess(v[j].venue, v[i].venue))
      && (forall i, j :: 0 <= i < j < |v| && v[i].venue == v[j].venue ==>
            !Tables.NullableIntLess(v[j].submissionNumber, v[i].submissionNumber))
  {
    var v := Listing(papers, subs, nextPaperId, nextSubscriberId).value;
    var sorted := Listed(papers, nextPaperId);
    PaperLessStrict();
    Sorting.SortCorrect(RowsOf(papers, Tables.PaperIds(papers, nextPaperId)), PaperLess);
    forall i, j | 0 <= i < j < |v|
      ensures !Tables.NullableTextLess(v[j].venue, v[i].venue)
      ensures v[i].venue == v[j].venue ==> !Tables.NullableIntLess(v[j].submissionNumber, v[i].submissionNumber)
    {
      assert Some(v[i]) == ListingRow(sorted[i], subs, nextSubscriberId);
      assert Some(v[j]) == ListingRow(sorted[j], subs, nextSubscriberId);
      assert !PaperLess(sorted[j], sorted[i]);
    }
  }

  /** A listing row counts the paper's subscribers and says whether some
      subscriber of it was told of reviews, and of a decision. */
  lemma {:induction false} ListingRowFlags(p: Tables.Paper, subs: map<nat, Tables.Subscriber>, bound: nat)
    requires forall id :: id in subs ==> id < bound
    requires ListingRow(p, subs, bound).Some?
    ensures var row := ListingRow(p, subs, bound).value;
      && row.subscriberCount == Some(|set id | id in subs && subs[id].paperId == p.id|)
      && row.notifiedReview == Some(exists id :: id in subs && subs[id].paperId == p.id && subs[id].notifiedReview)
      && row.notifiedDecision == Some(exists id :: id in subs && subs[id].paperId == p.id && subs[id].notifiedDecision)
  {
    assert (set id | id in subs && id < bound && subs[id].paperId == p.id)
        == (set id | id in subs && subs[id].paperId == p.id);
  }

  /** Each row of the listing carries its paper's subscriber count and flags. */
  lemma {:induction false} ListingFlags(papers: map<nat, Tables.Paper>, subs: map<nat, Tables.Subscriber>,
                                        nextPaperId: nat, nextSubscriberId: nat, i: nat)
    requires Tables.WellFormed(papers, subs, nextPaperId, nextSubscriberId)
    requires Listing(papers, subs, nextPaperId, nextSubscriberId).Success?
    requires i < |Listing(papers, subs, nextPaperId, nextSubscriberId).value|
    ensures var row := Listing(papers, subs, nextPaperId, nextSubscriberId).value[i];
      && row.subscriberCount == Some(|set id | id in subs && subs[id].paperId == row.id|)
      && row.notifiedReview == Some(exists id :: id in subs && subs[id].paperId == row.id && subs[id].notifiedReview)
      && row.notifiedDecision == Some(exists id :: id in subs && subs[id].paperId == row.id && subs[id].notifiedDecision)
  {
    var v := Listing(papers, subs, nextPaperId, nextSubscriberId).value;
    var p := Listed(papers, nextPaperId)[i];
    assert Some(v[i]) == ListingRow(p, subs, nextSubscriberId);
    ListingRowFlags(p, subs, nextSubscriberId);
  }

  /** `get_all_papers`: the loop that builds one response row per paper. */
  method GetAllPapers(papers: map<nat, Tables.Paper>, subs: map<nat, Tables.Subscriber>, nextPaperId: nat, nextSubscriberId: nat)
    returns (r: Result<seq<PaperView>, Http.HttpError>)
    ensures r == Listing(papers, subs, nextPaperId, nextSubscriberId)
  {
    var rows := Listed(papers, nextPaperId);
    var result: seq<PaperView> := [];
    var i := 0;
    while i < |rows|
      invariant 0 <= i <= |rows|
      invariant |result| == i
      invariant forall k :: 0 <= k < i ==> rows[k].status.Some? && Some(result[k]) == ListingRow(rows[k], subs, nextSubscriberId)
    {
      var p := rows[i];
      var view := ViewOf(p, Some(Tables.SubscriberCount(subs, nextSubscriberId, p.id)),
                         Some(AnyNotified(subs, nextSubscriberId, p.id, false)), Some(AnyNotified(subs, nextSubscriberId, p.id, true)));
      if view.None? {
        assert rows[i].status.None?;
        return Failure(Http.InternalError);
      }
      result := result + [view.value];
      i := i + 1;
    }
    assert result == seq(|rows|, k requires 0 <= k < |rows| => ListingRow(rows[k], subs, nextSubscriberId).value);
    r := Success(result);
  }

  // ----- send_test_email -----

  /** `send_test_email`, given the outcome of building the email service: a
      `ValueError` from building it or from sending is answered with 400 and
      its text, any other exception with 500. */
  function SendTestEmail(svc: Result<Email.EmailService, Http.Raised>, to: string,
                         deliver: Email.Mail -> Email.SmtpOutcome): (r: Result<string, Http.HttpError>)
    ensures svc.Failure? && svc.error.ValueError? ==> r == Failure(Http.Error(400, svc.error.message))
    ensures svc.Failure? && !svc.error.ValueError? ==> r == Failure(Http.Error(500, "Failed to send email: " + svc.error.message))
    ensures svc.Success? ==>
      (r.Success? <==> Email.SendTestEmail(svc.value, to, deliver).Success?)
    ensures svc.Success? && r.Failure? ==> r.error == Http.Error(400, Email.SendTestEmail(svc.value, to, deliver).error)
    ensures r.Success? ==> r.value == "Test email sent to " + to
  {
    if svc.Failure? then
      match svc.error
      case ValueError(m) => Failure(Http.Error(400, m))
      case _ => Failure(Http.Error(500, "Failed to send email: " + svc.error.message))
    else
      var sent := Email.SendTestEmail(svc.value, to, deliver);
      if sent.Failure? then Failure(Http.Error(400, sent.error))
      else Success("Test email sent to " + to)
  }

  /** As written the service is never built: with the declared settings the
      missing `from_name` setting gives 500. */
  lemma SendTestEmailAsWritten(config: Tables.ConfigTable, open: string -> Option<string>,
                               to: string, deliver: Email.Mail -> Email.SmtpOutcome)
    ensures SendTestEmail(Scheduler.GetEmailService(config, AppSettings.Defaults, open), to, deliver)
      == Failure(Http.Error(500, "Failed to send email: " + AppSettings.MissingSetting("from_name")))
  {
  }
}
