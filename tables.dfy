/** The three database tables as maps keyed by primary key, and the query
    orders the handlers rely on. A query without `ORDER BY` returns rows in
    ascending primary-key order here. */
module Tables {
  import opened Wrappers
  import OpenReview
  import Text

  /** The `review_data` JSON column. */
  datatype ReviewData = ReviewData(reviews: seq<OpenReview.Review>, reviewCount: nat)

  /** A row of `papers`. Times are integer clock readings. */
  datatype Paper = Paper(
    id: nat,
    openreviewId: string,
    submissionNumber: Option<int>,
    title: Option<string>,
    venue: Option<string>,
    username: Option<string>,
    password: Option<string>,
    status: Option<string>,
    lastChecked: Option<int>,
    reviewData: Option<ReviewData>,
    decisionData: Option<OpenReview.Decision>)

  /** A row of `subscribers`, with the `notify_on_review_modified` column the
      start-up migration adds. */
  datatype Subscriber = Subscriber(
    id: nat,
    paperId: nat,
    email: string,
    notifyOnReview: bool,
    notifyOnReviewModified: bool,
    notifyOnDecision: bool,
    notifiedReview: bool,
    notifiedDecision: bool)

  /** Keys are the rows' ids and below the next id, every subscriber's paper
      exists, and OpenReview ids are unique. */
  ghost predicate WellFormed(papers: map<nat, Paper>, subscribers: map<nat, Subscriber>, nextPaperId: nat, nextSubscriberId: nat) {
    && (forall id :: id in papers ==> papers[id].id == id && id < nextPaperId)
    && (forall id :: id in subscribers ==>
          subscribers[id].id == id && id < nextSubscriberId && subscribers[id].paperId in papers)
    && (forall a, b :: a in papers && b in papers && papers[a].openreviewId == papers[b].openreviewId ==> a == b)
  }

  /** Inserting a paper row under the next id, with an OpenReview id no row
      has, keeps the tables well formed. */
  lemma InsertPaperWellFormed(papers: map<nat, Paper>, subscribers: map<nat, Subscriber>, nextPaperId: nat,
                              nextSubscriberId: nat, p: Paper)
    requires WellFormed(papers, subscribers, nextPaperId, nextSubscriberId)
    requires p.id == nextPaperId
    requires forall id :: id in papers ==> papers[id].openreviewId != p.openreviewId
    ensures WellFormed(papers[nextPaperId := p], subscribers, nextPaperId + 1, nextSubscriberId)
  {
  }

  /** Inserting a subscriber row under the next id, for a stored paper, keeps
      the tables well formed. */
  lemma InsertSubscriberWellFormed(papers: map<nat, Paper>, subscribers: map<nat, Subscriber>, nextPaperId: nat,
                                   nextSubscriberId: nat, s: Subscriber)
    requires WellFormed(papers, subscribers, nextPaperId, nextSubscriberId)
    requires s.id == nextSubscriberId && s.paperId in papers
    ensures WellFormed(papers, subscribers[nextSubscriberId := s], nextPaperId, nextSubscriberId + 1)
  {
  }

  /** The members of `ids` below `bound`, ascending. */
  function IdsBelow(ids: set<nat>, bound: nat): (r: seq<nat>)
    ensures forall i :: 0 <= i < |r| ==> r[i] < bound
    ensures forall i, j :: 0 <= i < j < |r| ==> r[i] < r[j]
    ensures forall x :: x in r <==> x in ids && x < bound
    decreases bound
  {
    if bound == 0 then []
    else IdsBelow(ids, bound - 1) + (if bound - 1 in ids then [bound - 1] else [])
  }

  /** The paper and subscriber tables with their next keys, as one value. */
  datatype Rows = Rows(papers: map<nat, Paper>, subscribers: map<nat, Subscriber>, nextPaperId: nat, nextSubscriberId: nat)

  ghost predicate RowsWellFormed(t: Rows) {
    WellFormed(t.papers, t.subscribers, t.nextPaperId, t.nextSubscriberId)
  }

  /** `db.query(Paper).all()` */
  function PaperIds(papers: map<nat, Paper>, nextPaperId: nat): (r: seq<nat>)
    ensures forall i, j :: 0 <= i < j < |r| ==> r[i] < r[j]
    ensures forall x :: x in r <==> x in papers && x < nextPaperId
  {
    IdsBelow(papers.Keys, nextPaperId)
  }

  /** The ids of `subscribers` satisfying `keep`, ascending. */
  function SubscriberIdsWhere(subscribers: map<nat, Subscriber>, bound: nat, keep: Subscriber -> bool): (r: seq<nat>)
    ensures forall i :: 0 <= i < |r| ==> r[i] < bound
    ensures forall i, j :: 0 <= i < j < |r| ==> r[i] < r[j]
    ensures forall x :: x in r <==> x in subscribers && x < bound && keep(subscribers[x])
    decreases bound
  {
    if bound == 0 then []
    else
      var earlier := SubscriberIdsWhere(subscribers, bound - 1, keep);
      earlier + (if bound - 1 in subscribers && keep(subscribers[bound - 1]) then [bound - 1] else [])
  }

  function Elems(s: seq<nat>): set<nat> {
    set x | x in s
  }

  /** A strictly increasing list has as many elements as its set. */
  lemma {:induction false} IncreasingCard(s: seq<nat>)
    requires forall i, j :: 0 <= i < j < |s| ==> s[i] < s[j]
    ensures |Elems(s)| == |s|
    decreases |s|
  {
    if s != [] {
      var rest := s[1..];
      IncreasingCard(rest);
      assert Elems(s) == {s[0]} + Elems(rest);
      assert s[0] !in Elems(rest);
    }
  }

  function OfPaper(paperId: nat): Subscriber -> bool {
    (s: Subscriber) => s.paperId == paperId
  }

  /** `filter(Subscriber.paper_id == id).count()` */
  function SubscriberCount(subscribers: map<nat, Subscriber>, bound: nat, paperId: nat): (r: nat)
    ensures r == |set id | id in subscribers && id < bound && subscribers[id].paperId == paperId|
  {
    var ids := SubscriberIdsWhere(subscribers, bound, OfPaper(paperId));
    IncreasingCard(ids);
    assert Elems(ids) == set id | id in subscribers && id < bound && subscribers[id].paperId == paperId;
    |ids|
  }

  /** `db.query(Paper).filter(Paper.openreview_id == oid).first()` */
  function FindPaper(papers: map<nat, Paper>, bound: nat, openreviewId: string): (r: Option<nat>)
    ensures r.Some? ==> r.value in papers && r.value < bound && papers[r.value].openreviewId == openreviewId
    ensures r.None? ==> forall id :: id in papers && id < bound ==> papers[id].openreviewId != openreviewId
    decreases bound
  {
    if bound == 0 then None
    else
      var earlier := FindPaper(papers, bound - 1, openreviewId);
      if earlier.Some? then earlier
      else if bound - 1 in papers && papers[bound - 1].openreviewId == openreviewId then Some(bound - 1)
      else None
  }

  /** Strict code-point order on text. */
  predicate TextLess(a: string, b: string) {
    Text.LexLe(a, b) && a != b
  }

  lemma TextLessStrict(a: string, b: string, c: string)
    ensures !TextLess(a, a)
    ensures TextLess(a, b) && TextLess(b, c) ==> TextLess(a, c)
    ensures a != b ==> TextLess(a, b) || TextLess(b, a)
  {
    Text.LexLeTotal(a, b);
    if TextLess(a, b) && TextLess(b, c) {
      Text.LexLeTrans(a, b, c);
      if a == c {
        Text.LexLeAntisym(a, b);
      }
    }
  }

  /** SQLite's ascending order on a nullable column: `NULL` first. */
  predicate NullableTextLess(a: Option<string>, b: Option<string>) {
    (a.None? && b.Some?) || (a.Some? && b.Some? && TextLess(a.value, b.value))
  }

  predicate NullableIntLess(a: Option<int>, b: Option<int>) {
    (a.None? && b.Some?) || (a.Some? && b.Some? && a.value < b.value)
  }

  lemma NullableTextLessStrict(a: Option<string>, b: Option<string>, c: Option<string>)
    ensures !NullableTextLess(a, a)
    ensures NullableTextLess(a, b) && NullableTextLess(b, c) ==> NullableTextLess(a, c)
    ensures a != b ==> NullableTextLess(a, b) || NullableTextLess(b, a)
  {
    if a.Some? && b.Some? && c.Some? {
      TextLessStrict(a.value, b.value, c.value);
    } else if a.Some? && b.Some? {
      TextLessStrict(a.value, b.value, b.value);
    } else if a.Some? {
      TextLessStrict(a.value, a.value, a.value);
    }
  }

  /** The keys of the `config` table the application reads and writes. */
  datatype ConfigKey =
    | CheckInterval | ReviewModCheckInterval | SmtpHost | SmtpPort
    | SmtpUser | SmtpPassword | FromEmail | FromName

  /** The text stored in the `key` column. */
  function KeyName(k: ConfigKey): (name: string)
    ensures name != []
  {
    match k
    case CheckInterval => "check_interval"
    case ReviewModCheckInterval => "review_mod_check_interval"
    case SmtpHost => "smtp_host"
    case SmtpPort => "smtp_port"
    case SmtpUser => "smtp_user"
    case SmtpPassword => "smtp_password"
    case FromEmail => "from_email"
    case FromName => "from_name"
  }

  /** The `config` table: a key's row holds a nullable value. */
  type ConfigTable = map<ConfigKey, Option<string>>

  /** The database: the `papers`, `subscribers` and `config` tables and the
      next value of each auto-increment key. */
  class Database {
    var papers: map<nat, Paper>
    var subscribers: map<nat, Subscriber>
    var config: ConfigTable
    var nextPaperId: nat
    var nextSubscriberId: nat

    constructor ()
      ensures papers == map[] && subscribers == map[] && config == map[]
      ensures nextPaperId == 1 && nextSubscriberId == 1
      ensures Valid()
    {
      papers := map[];
      subscribers := map[];
      config := map[];
      nextPaperId := 1;
      nextSubscriberId := 1;
    }

    ghost predicate Valid()
      reads this
    {
      WellFormed(papers, subscribers, nextPaperId, nextSubscriberId)
    }

    /** The paper and subscriber tables as they stand. */
    function Snapshot(): (t: Rows)
      reads this
      ensures t.papers == papers && t.subscribers == subscribers
      ensures t.nextPaperId == nextPaperId && t.nextSubscriberId == nextSubscriberId
      ensures RowsWellFormed(t) <==> Valid()
    {
      Rows(papers, subscribers, nextPaperId, nextSubscriberId)
    }
  }
}
