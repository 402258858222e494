/** The administrator's subscriber endpoints: the listing, deletion and the
    reset of the notified flags. */
module SubscribersRouter {
  import opened Wrappers
  import Tables
  import Sorting
  import Http

  // ----- get_all_subscribers -----

  /** A row of `subscribers JOIN papers`. */
  datatype Joined = Joined(sub: Tables.Subscriber, paper: Tables.Paper)

  /** `ORDER BY papers.venue, papers.submission_number, subscribers.id`. */
  predicate JoinedLess(a: Joined, b: Joined) {
    || Tables.NullableTextLess(a.paper.venue, b.paper.venue)
    || (a.paper.venue == b.paper.venue && Tables.NullableIntLess(a.paper.submissionNumber, b.paper.submissionNumber))
    || (a.paper.venue == b.paper.venue && a.paper.submissionNumber == b.paper.submissionNumber && a.sub.id < b.sub.id)
  }

  lemma JoinedLessStrict()
    ensures Sorting.StrictOrder(JoinedLess)
  {
    forall a: Joined ensures !JoinedLess(a, a) {
      Tables.NullableTextLessStrict(a.paper.venue, a.paper.venue, a.paper.venue);
    }
    forall a: Joined, b: Joined, c: Joined | JoinedLess(a, b) && JoinedLess(b, c)
      ensures JoinedLess(a, c)
    {
      Tables.NullableTextLessStrict(a.paper.venue, b.paper.venue, c.paper.venue);
      Tables.NullableTextLessStrict(b.paper.venue, a.paper.venue, c.paper.venue);
      Tables.NullableTextLessStrict(a.paper.venue, c.paper.venue, b.paper.venue);
    }
  }

  /** The subscribers whose paper exists, ascending by id. */
  function JoinIds(t: Tables.Rows): (ids: seq<nat>)
    ensures forall i :: 0 <= i < |ids| ==> ids[i] in t.subscribers && t.subscribers[ids[i]].paperId in t.papers
    ensures forall x :: x in ids <==> x in t.subscribers && x < t.nextSubscriberId && t.subscribers[x].paperId in t.papers
  {
    Tables.SubscriberIdsWhere(t.subscribers, t.nextSubscriberId, (s: Tables.Subscriber) => s.paperId in t.papers)
  }

  /** The inner join, each subscriber with its paper. */
  function JoinRows(t: Tables.Rows): (r: seq<Joined>)
    ensures var ids := JoinIds(t);
      && |r| == |ids|
      && forall i :: 0 <= i < |r| ==>
           r[i] == Joined(t.subscribers[ids[i]], t.papers[t.subscribers[ids[i]].paperId])
  {
    var ids := JoinIds(t);
    seq(|ids|, i requires 0 <= i < |ids| => Joined(t.subscribers[ids[i]], t.papers[t.subscribers[ids[i]].paperId]))
  }

  /** The query result in listing order. */
  function Listed(t: Tables.Rows): seq<Joined> {
    Sorting.Sort(JoinRows(t), JoinedLess)
  }

  /** Every subscriber appears in the query result, with its own paper, and
      nothing else does. */
  lemma {:induction false} ListedCovers(t: Tables.Rows, id: nat)
    requires Tables.RowsWellFormed(t)
    ensures var s := Listed(t);
      && (id in t.subscribers <==> exists i :: 0 <= i < |s| && s[i].sub.id == id)
      && (forall i :: 0 <= i < |s| && s[i].sub.id == id ==>
            s[i].sub == t.subscribers[id] && s[i].paper == t.papers[t.subscribers[id].paperId])
  {
    var ids := JoinIds(t);
    var rows := JoinRows(t);
    var s := Listed(t);
    JoinedLessStrict();
    if id in t.subscribers {
      assert id in ids;
      var k :| 0 <= k < |ids| && ids[k] == id;
      assert rows[k] in rows;
      Sorting.SortSameElements(rows, JoinedLess, rows[k]);
      var i :| 0 <= i < |s| && s[i] == rows[k];
      assert s[i].sub.id == id;
    }
    forall i | 0 <= i < |s|
      ensures s[i].sub.id in t.subscribers
      ensures s[i].sub == t.subscribers[s[i].sub.id] && s[i].paper == t.papers[s[i].sub.paperId]
    {
      assert s[i] in s;
      Sorting.SortSameElements(rows, JoinedLess, s[i]);
      var k :| 0 <= k < |rows| && rows[k] == s[i];
      assert ids[k] in t.subscribers;
    }
  }

  /** The query result is ordered by venue, then submission number, then
      subscriber id, nulls first. */
  lemma {:induction false} ListedOrdered(t: Tables.Rows)
    ensures var s := Listed(t);
      forall i, j :: 0 <= i < j < |s| ==>
        && !Tables.NullableTextLess(s[j].paper.venue, s[i].paper.venue)
        && (s[i].paper.venue == s[j].paper.venue ==>
              !Tables.NullableIntLess(s[j].paper.submissionNumber, s[i].paper.submissionNumber))
        && (s[i].paper.venue == s[j].paper.venue && s[i].paper.submissionNumber == s[j].paper.submissionNumber ==>
              s[i].sub.id <= s[j].sub.id)
  {
    JoinedLessStrict();
    Sorting.SortCorrect(JoinRows(t), JoinedLess);
  }

  /** `SubscriberResponse`, without `created_at`. */
  datatype SubscriberView = SubscriberView(
    id: nat,
    paperId: nat,
    email: string,
    notifyOnReview: bool,
    notifyOnReviewModified: bool,
    notifyOnDecision: bool,
    notifiedReview: bool,
    notifiedDecision: bool,
    paperTitle: Option<string>,
    paperVenue: Option<string>,
    submissionNumber: Option<int>)

  /** Building the response for one row; `reviewModified` is the value given
      for the required `notify_on_review_modified` field, and without one
      validation fails. */
  function ResponseOf(j: Joined, reviewModified: Option<bool>): (v: Option<SubscriberView>)
    ensures v.Some? <==> reviewModified.Some?
    ensures v.Some? ==>
      && v.value.id == j.sub.id && v.value.paperId == j.sub.paperId && v.value.email == j.sub.email
      && v.value.notifyOnReview == j.sub.notifyOnReview && v.value.notifyOnReviewModified == reviewModified.value
      && v.value.notifyOnDecision == j.sub.notifyOnDecision
      && v.value.notifiedReview == j.sub.notifiedReview && v.value.notifiedDecision == j.sub.notifiedDecision
      && v.value.paperTitle == j.paper.title && v.value.paperVenue == j.paper.venue
      && v.value.submissionNumber == j.paper.submissionNumber
  {
    if reviewModified.None? then None
    else Some(SubscriberView(j.sub.id, j.sub.paperId, j.sub.email, j.sub.notifyOnReview, reviewModified.value,
                             j.sub.notifyOnDecision, j.sub.notifiedReview, j.sub.notifiedDecision,
                             j.paper.title, j.paper.venue, j.paper.submissionNumber))
  }

  /** What the handler passes for `notify_on_review_modified`: nothing. */
  function NotGiven(j: Joined): Option<bool> {
    None
  }

  /** `get_all_subscribers`, where `given` is the value passed for the
      required `notify_on_review_modified` field: a row without one fails
      validation and the response is 500. */
  function Listing(t: Tables.Rows, given: Joined -> Option<bool>): (r: Result<seq<SubscriberView>, Http.HttpError>)
    ensures r.Failure? <==> exists i :: 0 <= i < |Listed(t)| && given(Listed(t)[i]).None?
    ensures r.Failure? ==> r.error == Http.InternalError
    ensures r.Success? ==> |r.value| == |Listed(t)|
    ensures r.Success? ==>
      forall i :: 0 <= i < |r.value| ==> Some(r.value[i]) == ResponseOf(Listed(t)[i], given(Listed(t)[i]))
  {
    var rows := Listed(t);
    if exists i :: 0 <= i < |rows| && given(rows[i]).None? then Failure(Http.InternalError)
    else Success(seq(|rows|, i requires 0 <= i < |rows| => ResponseOf(rows[i], given(rows[i])).value))
  }

  /** As written the listing succeeds exactly when there is no subscriber, and
      is then empty. */
  lemma {:induction false} ListingAsWritten(t: Tables.Rows)
    requires Tables.RowsWellFormed(t)
    ensures Listing(t, NotGiven).Success? <==> t.subscribers == map[]
    ensures Listing(t, NotGiven).Success? ==> Listing(t, NotGiven).value == []
  {
    var s := Listed(t);
    if t.subscribers != map[] {
      var id :| id in t.subscribers;
      ListedCovers(t, id);
      var i :| 0 <= i < |s| && s[i].sub.id == id;
      assert NotGiven(s[i]).None?;
    }
    if s != [] {
      ListedCovers(t, s[0].sub.id);
    }
  }

  /** When every row is given the field, the response rows follow the query
      order and carry each subscriber's own fields and its paper's title,
      venue and submission number. */
  lemma {:induction false} ListingRows(t: Tables.Rows, given: Joined -> Option<bool>, i: nat)
    requires Listing(t, given).Success?
    requires i < |Listing(t, given).value|
    ensures var v := Listing(t, given).value[i];
      var j := Listed(t)[i];
      && v.id == j.sub.id && v.email == j.sub.email
      && v.notifiedReview == j.sub.notifiedReview && v.notifiedDecision == j.sub.notifiedDecision
      && v.paperTitle == j.paper.title && v.paperVenue == j.paper.venue
      && v.submissionNumber == j.paper.submissionNumber
  {
    var j := Listed(t)[i];
    assert Some(Listing(t, given).value[i]) == ResponseOf(j, given(j));
  }

  /** The loop of `get_all_subscribers`. */
  method GetAllSubscribers(t: Tables.Rows, given: Joined -> Option<bool>) returns (r: Result<seq<SubscriberView>, Http.HttpError>)
    ensures r == Listing(t, given)
  {
    var rows := Listed(t);
    var result: seq<SubscriberView> := [];
    var i := 0;
    while i < |rows|
      invariant 0 <= i <= |rows|
      invariant |result| == i
      invariant forall k :: 0 <= k < i ==> given(rows[k]).Some? && Some(result[k]) == ResponseOf(rows[k], given(rows[k]))
    {
      var view := ResponseOf(rows[i], given(rows[i]));
      if view.None? {
        return Failure(Http.InternalError);
      }
      result := result + [view.value];
      i := i + 1;
    }
    assert result == seq(|rows|, k requires 0 <= k < |rows| => ResponseOf(rows[k], given(rows[k])).value);
    r := Success(result);
  }

  // ----- delete_subscriber -----

  const SubscriberNotFound: string := "Subscriber not found"
  const SubscriberDeleted: string := "Subscriber deleted successfully"

  /** The tables without one subscriber. */
  function WithoutSubscriber(t: Tables.Rows, id: nat): (u: Tables.Rows)
    ensures u.subscribers == t.subscribers - {id}
    ensures u.papers == t.papers && u.nextPaperId == t.nextPaperId && u.nextSubscriberId == t.nextSubscriberId
  {
    t.(subscribers := t.subscribers - {id})
  }

  /** Removing a subscriber keeps the tables well formed and removes exactly
      that row. */
  lemma {:induction false} WithoutSubscriberWellFormed(t: Tables.Rows, id: nat)
    requires Tables.RowsWellFormed(t)
    ensures Tables.RowsWellFormed(WithoutSubscriber(t, id))
    ensures forall k :: k in WithoutSubscriber(t, id).subscribers <==> k in t.subscribers && k != id
  {
  }

  /** `delete_subscriber`: 404 and no change for an unknown id. */
  method DeleteSubscriber(db: Tables.Database, subscriberId: int) returns (r: Result<string, Http.HttpError>)
    modifies db
    ensures db.config == old(db.config)
    ensures subscriberId < 0 || subscriberId as nat !in old(db.subscribers) ==>
      r == Failure(Http.Error(404, SubscriberNotFound)) && db.Snapshot() == old(db.Snapshot())
    ensures subscriberId >= 0 && subscriberId as nat in old(db.subscribers) ==>
      r == Success(SubscriberDeleted) && db.Snapshot() == WithoutSubscriber(old(db.Snapshot()), subscriberId as nat)
  {
    if subscriberId < 0 || subscriberId as nat !in db.subscribers {
      return Failure(Http.Error(404, SubscriberNotFound));
    }
    db.subscribers := db.subscribers - {subscriberId as nat};
    r := Success(SubscriberDeleted);
  }

  // ----- reset_notifications -----

  const NotificationsReset: string := "Notification status reset"

  /** The tables with one subscriber's two notified flags cleared. */
  function ResetRows(t: Tables.Rows, id: nat): (u: Tables.Rows)
    requires id in t.subscribers
    ensures u.papers == t.papers && u.nextPaperId == t.nextPaperId && u.nextSubscriberId == t.nextSubscriberId
    ensures u.subscribers.Keys == t.subscribers.Keys
    ensures !u.subscribers[id].notifiedReview && !u.subscribers[id].notifiedDecision
    ensures u.subscribers[id] == t.subscribers[id].(notifiedReview := false, notifiedDecision := false)
    ensures forall k :: k in t.subscribers && k != id ==> u.subscribers[k] == t.subscribers[k]
  {
    t.(subscribers := t.subscribers[id := t.subscribers[id].(notifiedReview := false, notifiedDecision := false)])
  }

  /** A reset keeps the tables well formed and the preferences, and a second
      reset changes nothing. */
  lemma {:induction false} ResetRowsProperties(t: Tables.Rows, id: nat)
    requires id in t.subscribers
    ensures Tables.RowsWellFormed(t) ==> Tables.RowsWellFormed(ResetRows(t, id))
    ensures var s := ResetRows(t, id).subscribers[id];
      && s.notifyOnReview == t.subscribers[id].notifyOnReview
      && s.notifyOnReviewModified == t.subscribers[id].notifyOnReviewModified
      && s.notifyOnDecision == t.subscribers[id].notifyOnDecision
      && s.email == t.subscribers[id].email && s.paperId == t.subscribers[id].paperId
    ensures ResetRows(ResetRows(t, id), id) == ResetRows(t, id)
  {
    var u := ResetRows(t, id);
    assert u.subscribers[id := u.subscribers[id].(notifiedReview := false, notifiedDecision := false)] == u.subscribers;
  }

  /** `reset_notifications`: 404 and no change for an unknown id. */
  method ResetNotifications(db: Tables.Database, subscriberId: int) returns (r: Result<string, Http.HttpError>)
    modifies db
    ensures db.config == old(db.config)
    ensures subscriberId < 0 || subscriberId as nat !in old(db.subscribers) ==>
      r == Failure(Http.Error(404, SubscriberNotFound)) && db.Snapshot() == old(db.Snapshot())
    ensures subscriberId >= 0 && subscriberId as nat in old(db.subscribers) ==>
      r == Success(NotificationsReset) && db.Snapshot() == ResetRows(old(db.Snapshot()), subscriberId as nat)
  {
    if subscriberId < 0 || subscriberId as nat !in db.subscribers {
      return Failure(Http.Error(404, SubscriberNotFound));
    }
    var id := subscriberId as nat;
    var s := db.subscribers[id];
    s := s.(notifiedReview := false);
    s := s.(notifiedDecision := false);
    db.subscribers := db.subscribers[id := s];
    r := Success(NotificationsReset);
  }
}
