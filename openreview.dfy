/** The OpenReview client wrapper: field extraction from notes and the
    paper status classification. The API calls themselves are inputs: a fetch
    is `Success(notes)` or `Failure(message)` for the exception it raised. */
module OpenReview {
  import opened Wrappers
  import opened Json
  import Text

  /** A note as the client library returns it. Its attributes always exist;
      `None` values are `Null` / `None` and an unset invitation list is `[]`. */
  datatype Note = Note(
    id: string,
    content: Json,
    invitations: seq<string>,
    invitation: Option<string>,
    mdate: Option<int>,
    domain: Option<string>,
    number: Json,
    forum: Option<string>)

  /** One entry of `get_reviews`. */
  datatype Review = Review(
    id: string,
    rating: Json,
    confidence: Json,
    summary: Json,
    strengths: Json,
    weaknesses: Json,
    soundness: Json,
    presentation: Json,
    contribution: Json,
    mdate: Option<int>)

  /** The result of `get_decision`. */
  datatype Decision = Decision(decision: Json, comment: Json, mdate: Option<int>)

  /** The result of `get_paper_info`. */
  datatype PaperInfo = PaperInfo(
    id: string,
    title: Json,
    venue: Json,
    authors: seq<Json>,
    forum: Option<string>,
    submissionNumber: Option<int>)

  /** The result of `check_paper_status`. */
  datatype StatusReport = StatusReport(
    status: string,
    reviews: seq<Review>,
    decision: Option<Decision>,
    reviewCount: nat,
    hasDecision: bool)

  // ----- content fields -----

  /** `_get_content_value`: values come either bare or wrapped as `{"value": …}`. */
  function ContentValue(content: map<string, Json>, key: string): (r: Json)
    ensures key !in content ==> r == Null
    ensures key in content && content[key].Obj? ==> r == Get(content[key].fields, "value")
    ensures key in content && !content[key].Obj? ==> r == content[key]
  {
    if key !in content then Null
    else match content[key]
      case Obj(fields) => Get(fields, "value")
      case other => other
  }

  /** The value of the first key whose content value `accept`s, else `None`:
      the `for key in …: … break` loops of `get_reviews` and `get_decision`. */
  function FirstValue(content: map<string, Json>, keys: seq<string>, accept: Json -> bool): (r: Json)
    ensures r == Null || accept(r)
    ensures keys == [] ==> r == Null
    decreases |keys|
  {
    if keys == [] then Null
    else if accept(ContentValue(content, keys[0])) then ContentValue(content, keys[0])
    else FirstValue(content, keys[1..], accept)
  }

  /** `FirstValue` is the value at the first accepted key, or `None` when no key
      is accepted. */
  lemma {:induction false} FirstValueIsFirst(content: map<string, Json>, keys: seq<string>, accept: Json -> bool)
    ensures (forall i :: 0 <= i < |keys| ==> !accept(ContentValue(content, keys[i])))
              ==> FirstValue(content, keys, accept) == Null
    ensures forall i :: 0 <= i < |keys| && accept(ContentValue(content, keys[i]))
              && (forall j :: 0 <= j < i ==> !accept(ContentValue(content, keys[j])))
              ==> FirstValue(content, keys, accept) == ContentValue(content, keys[i])
    decreases |keys|
  {
    if keys != [] {
      FirstValueIsFirst(content, keys[1..], accept);
      forall i | 0 <= i < |keys| && accept(ContentValue(content, keys[i]))
          && (forall j :: 0 <= j < i ==> !accept(ContentValue(content, keys[j])))
        ensures FirstValue(content, keys, accept) == ContentValue(content, keys[i])
      {
        if i > 0 {
          assert !accept(ContentValue(content, keys[0]));
          assert keys[1..][i - 1] == keys[i];
          forall j | 0 <= j < i - 1 ensures !accept(ContentValue(content, keys[1..][j])) {
            assert keys[1..][j] == keys[j + 1];
          }
        }
      }
      if forall i :: 0 <= i < |keys| ==> !accept(ContentValue(content, keys[i])) {
        forall i | 0 <= i < |keys| - 1 ensures !accept(ContentValue(content, keys[1..][i])) {
          assert keys[1..][i] == keys[i + 1];
        }
      }
    }
  }

  /** The break-on-first key loop. */
  method FindFirstValue(content: map<string, Json>, keys: seq<string>, accept: Json -> bool) returns (r: Json)
    ensures r == FirstValue(content, keys, accept)
  {
    var i := 0;
    while i < |keys|
      invariant 0 <= i <= |keys|
      invariant FirstValue(content, keys[i..], accept) == FirstValue(content, keys, accept)
    {
      var val := ContentValue(content, keys[i]);
      if accept(val) {
        return val;
      }
      assert keys[i..][1..] == keys[i + 1..];
      i := i + 1;
    }
    return Null;
  }

  const RatingKeys: seq<string> := ["rating", "recommendation", "score"]
  const CommentKeys: seq<string> := ["comment", "metareview", "meta_review", "explanation"]

  predicate IsPresent(j: Json) { j != Null }

  // ----- venue names -----

  /** The rest of `\s*(Conference\s*)?Submission\s*$` after the optional group,
      on lower-cased text. */
  predicate SubmissionTail(w: string) {
    var x := Text.TrimStart(w);
    Text.StartsWith(x, "submission") && forall i :: 10 <= i < |x| ==> Text.IsSpace(x[i])
  }

  /** Whether `\s*(Conference\s*)?Submission\s*$` matches all of `t`, ignoring
      case. */
  predicate SuffixMatches(t: string) {
    var u := Text.TrimStart(Text.Lower(t));
    (Text.StartsWith(u, "conference") && SubmissionTail(u[10..])) || SubmissionTail(u)
  }

  /** Where the leftmost match of the suffix pattern starts, at or after `from`
      (the length of `v` when there is none). */
  function MatchStart(v: string, from: nat): (r: nat)
    requires from <= |v|
    ensures from <= r <= |v|
    ensures r < |v| ==> SuffixMatches(v[r..])
    ensures forall q :: from <= q < r ==> !SuffixMatches(v[q..])
    decreases |v| - from
  {
    if from == |v| then from
    else if SuffixMatches(v[from..]) then from
    else MatchStart(v, from + 1)
  }

  /** `_clean_venue_name`: drop the leftmost suffix match, then strip. */
  function CleanVenueName(venue: string): (r: string)
    ensures |r| <= |venue|
    ensures venue == [] ==> r == []
  {
    if venue == "" then venue else Text.Trim(venue[..MatchStart(venue, 0)])
  }

  /** Text without any suffix match is only stripped. */
  lemma CleanVenueNoMatch(venue: string)
    requires venue != []
    requires forall q :: 0 <= q < |venue| ==> !SuffixMatches(venue[q..])
    ensures CleanVenueName(venue) == Text.Trim(venue)
  {
    assert MatchStart(venue, 0) == |venue|;
    assert venue[..|venue|] == venue;
  }

  /** When the leftmost match starts at `p`, the text before `p` is kept,
      stripped. */
  lemma CleanVenueMatch(venue: string, p: nat)
    requires p < |venue| && SuffixMatches(venue[p..])
    requires forall q :: 0 <= q < p ==> !SuffixMatches(venue[q..])
    ensures CleanVenueName(venue) == Text.Trim(venue[..p])
  {
    var k := MatchStart(venue, 0);
    assert k == p;
  }

  predicate IsUpper(c: char) { 'A' <= c <= 'Z' }

  /** The longest prefix of upper-case ASCII letters. */
  function UpperPrefix(s: string): (r: string)
    ensures |r| <= |s| && r == s[..|r|]
    ensures forall i :: 0 <= i < |r| ==> IsUpper(r[i])
    ensures |r| < |s| ==> !IsUpper(s[|r|])
    decreases |s|
  {
    if s != [] && IsUpper(s[0]) then [s[0]] + UpperPrefix(s[1..]) else []
  }

  /** `_extract_venue_from_domain`: `re.match(r'([A-Z]+)\.cc/(\d{4})', domain)`. */
  function ExtractVenueFromDomain(domain: Option<string>): (r: Option<string>)
    ensures domain.None? || domain == Some("") ==> r.None?
  {
    match domain
    case None => None
    case Some(d) =>
      var letters := UpperPrefix(d);
      var rest := d[|letters|..];
      if letters != [] && |rest| >= 8 && rest[..4] == ".cc/"
         && (forall i :: 4 <= i < 8 ==> Text.IsDigit(rest[i]))
      then Some(letters + " " + rest[4..8])
      else None
  }

  /** The upper-case run of `letters + rest` is `letters` when `rest` does not
      start with an upper-case letter. */
  lemma {:induction false} UpperPrefixOf(letters: string, rest: string)
    requires forall i :: 0 <= i < |letters| ==> IsUpper(letters[i])
    requires rest == [] || !IsUpper(rest[0])
    ensures UpperPrefix(letters + rest) == letters
    decreases |letters|
  {
    if letters != [] {
      assert (letters + rest)[1..] == letters[1..] + rest;
      UpperPrefixOf(letters[1..], rest);
    }
  }

  /** A domain `LETTERS.cc/YYYY…` gives "LETTERS YYYY", and every result has that
      form. */
  lemma DomainVenue(letters: string, year: string, rest: string)
    requires letters != [] && forall i :: 0 <= i < |letters| ==> IsUpper(letters[i])
    requires |year| == 4 && forall i :: 0 <= i < 4 ==> Text.IsDigit(year[i])
    ensures ExtractVenueFromDomain(Some(letters + ".cc/" + year + rest)) == Some(letters + " " + year)
  {
    var d := letters + ".cc/" + year + rest;
    var tail := ".cc/" + year + rest;
    assert d == letters + tail;
    UpperPrefixOf(letters, tail);
    assert d[|letters|..] == tail;
    assert tail[..4] == ".cc/";
    assert tail[4..8] == year;
  }

  lemma DomainVenueShape(d: string)
    requires ExtractVenueFromDomain(Some(d)).Some?
    ensures exists letters, year ::
      letters != [] && |year| == 4 && Text.StartsWith(d, letters + ".cc/" + year)
      && ExtractVenueFromDomain(Some(d)) == Some(letters + " " + year)
  {
    var letters := UpperPrefix(d);
    var rest := d[|letters|..];
    var year := rest[4..8];
    assert d[..|letters| + 8] == letters + ".cc/" + year;
  }

  // ----- invitations -----

  /** `_get_invitations` */
  function Invitations(note: Note): (r: seq<string>)
    ensures note.invitations != [] ==> r == note.invitations
    ensures note.invitations == [] && note.invitation.Some? && note.invitation.value != "" ==> r == [note.invitation.value]
    ensures note.invitations == [] && (note.invitation.None? || note.invitation == Some("")) ==> r == []
  {
    if note.invitations != [] then note.invitations
    else if note.invitation.Some? && note.invitation.value != "" then [note.invitation.value]
    else []
  }

  predicate ReviewInvitation(inv: string) {
    Text.Contains(inv, "Official_Review") || Text.Contains(inv, "/Review")
  }

  predicate DecisionInvitation(inv: string) {
    Text.Contains(inv, "Decision") || Text.Contains(inv, "Meta_Review") || Text.Contains(inv, "Area_Chair")
  }

  /** `_is_review` */
  predicate IsReview(invitations: seq<string>) {
    exists i :: 0 <= i < |invitations| && ReviewInvitation(invitations[i])
  }

  /** `_is_decision` */
  predicate IsDecision(invitations: seq<string>) {
    exists i :: 0 <= i < |invitations| && DecisionInvitation(invitations[i])
  }

  /** A venue's meta-review invitation marks a decision note. */
  lemma MetaReviewIsDecision(venue: string)
    ensures IsDecision([venue + "/-/Meta_Review"])
  {
    var inv := venue + "/-/Meta_Review";
    assert inv[|venue| + 3..|venue| + 3 + |"Meta_Review"|] == "Meta_Review";
    Text.ContainsAt(inv, "Meta_Review", |venue| + 3);
    assert DecisionInvitation([inv][0]);
  }

  // ----- reviews -----

  /** The record `get_reviews` builds for one review note. */
  function ReviewOf(note: Note): (r: Review)
    ensures r.id == note.id && r.mdate == note.mdate
    ensures note.content.Obj? ==>
      var c := note.content.fields;
      && r.rating == FirstValue(c, RatingKeys, IsPresent)
      && r.confidence == ContentValue(c, "confidence")
      && r.summary == ContentValue(c, "summary")
      && r.strengths == ContentValue(c, "strengths")
      && r.weaknesses == ContentValue(c, "weaknesses")
      && r.soundness == ContentValue(c, "soundness")
      && r.presentation == ContentValue(c, "presentation")
      && r.contribution == ContentValue(c, "contribution")
    ensures !note.content.Obj? ==>
      && r.rating == Null && r.confidence == Null && r.summary == Null && r.strengths == Null
      && r.weaknesses == Null && r.soundness == Null && r.presentation == Null && r.contribution == Null
  {
    match note.content
    case Obj(c) =>
      Review(note.id, FirstValue(c, RatingKeys, IsPresent), ContentValue(c, "confidence"),
             ContentValue(c, "summary"), ContentValue(c, "strengths"), ContentValue(c, "weaknesses"),
             ContentValue(c, "soundness"), ContentValue(c, "presentation"), ContentValue(c, "contribution"),
             note.mdate)
    case _ => Review(note.id, Null, Null, Null, Null, Null, Null, Null, Null, note.mdate)
  }

  /** The reviews among `notes`, in order. */
  function ReviewsOf(notes: seq<Note>): (r: seq<Review>)
    ensures |r| <= |notes|
    decreases |notes|
  {
    if notes == [] then []
    else
      var last := notes[|notes| - 1];
      ReviewsOf(notes[..|notes| - 1]) + (if IsReview(Invitations(last)) then [ReviewOf(last)] else [])
  }

  /** Note `n` is a review note whose record is `r`. */
  predicate Produces(n: Note, r: Review) {
    IsReview(Invitations(n)) && r == ReviewOf(n)
  }

  /** A record is among the reviews exactly when some review note produced it. */
  lemma {:induction false} ReviewsOfExactly(notes: seq<Note>, r: Review)
    ensures r in ReviewsOf(notes) <==> exists i :: 0 <= i < |notes| && Produces(notes[i], r)
    decreases |notes|
  {
    if notes != [] {
      var init := notes[..|notes| - 1];
      var last := notes[|notes| - 1];
      ReviewsOfExactly(init, r);
      assert ReviewsOf(notes) == ReviewsOf(init) + (if IsReview(Invitations(last)) then [ReviewOf(last)] else []);
      if r in ReviewsOf(notes) {
        if r !in ReviewsOf(init) {
          assert Produces(notes[|notes| - 1], r);
        } else {
          var i :| 0 <= i < |init| && Produces(init[i], r);
          assert notes[i] == init[i];
        }
      }
      if exists i :: 0 <= i < |notes| && Produces(notes[i], r) {
        var i :| 0 <= i < |notes| && Produces(notes[i], r);
        if i < |notes| - 1 {
          assert init[i] == notes[i];
        }
      }
    }
  }

  /** `get_reviews`: `suppress_errors` turns a failed fetch into no reviews. */
  method GetReviews(fetched: Result<seq<Note>, string>, suppressErrors: bool) returns (r: Result<seq<Review>, string>)
    ensures fetched.Success? ==> r == Success(ReviewsOf(fetched.value))
    ensures fetched.Failure? && suppressErrors ==> r == Success([])
    ensures fetched.Failure? && !suppressErrors ==> r == Failure(fetched.error)
  {
    if fetched.Failure? {
      if suppressErrors {
        return Success([]);
      }
      return Failure(fetched.error);
    }
    var notes := fetched.value;
    var reviews: seq<Review> := [];
    var i := 0;
    while i < |notes|
      invariant 0 <= i <= |notes|
      invariant reviews == ReviewsOf(notes[..i])
    {
      var note := notes[i];
      assert notes[..i + 1][..i] == notes[..i];
      if IsReview(Invitations(note)) {
        var review := Review(note.id, Null, Null, Null, Null, Null, Null, Null, Null, note.mdate);
        if note.content.Obj? {
          var c := note.content.fields;
          var rating := FindFirstValue(c, RatingKeys, IsPresent);
          review := review.(rating := rating,
            confidence := ContentValue(c, "confidence"),
            soundness := ContentValue(c, "soundness"),
            presentation := ContentValue(c, "presentation"),
            contribution := ContentValue(c, "contribution"),
            summary := ContentValue(c, "summary"),
            strengths := ContentValue(c, "strengths"),
            weaknesses := ContentValue(c, "weaknesses"));
        }
        reviews := reviews + [review];
      }
      i := i + 1;
    }
    assert notes[..|notes|] == notes;
    return Success(reviews);
  }

  // ----- decisions -----

  /** What `get_decision` reads from one decision note. */
  function DecisionFields(note: Note): (r: Decision)
    ensures r.mdate == note.mdate
    ensures note.content.Obj? ==>
      var c := note.content.fields;
      && r.decision == (if Truthy(ContentValue(c, "decision")) then ContentValue(c, "decision") else ContentValue(c, "recommendation"))
      && r.comment == FirstValue(c, CommentKeys, Truthy)
    ensures !note.content.Obj? ==> r.decision == Null && r.comment == Null
  {
    match note.content
    case Obj(c) =>
      var d := ContentValue(c, "decision");
      Decision(if Truthy(d) then d else ContentValue(c, "recommendation"),
               FirstValue(c, CommentKeys, Truthy), note.mdate)
    case _ => Decision(Null, Null, note.mdate)
  }

  /** A note `get_decision` would return. */
  predicate DecidingNote(note: Note) {
    IsDecision(Invitations(note)) && Truthy(DecisionFields(note).decision)
  }

  /** The first deciding note's fields. */
  function FirstDecision(notes: seq<Note>): (r: Option<Decision>)
    ensures r.Some? ==> Truthy(r.value.decision)
    decreases |notes|
  {
    if notes == [] then None
    else if DecidingNote(notes[0]) then Some(DecisionFields(notes[0]))
    else FirstDecision(notes[1..])
  }

  /** The decision comes from the first deciding note, and there is none exactly
      when no note is deciding. */
  lemma FirstDecisionIsFirst(notes: seq<Note>)
    ensures FirstDecision(notes).None? <==> forall i :: 0 <= i < |notes| ==> !DecidingNote(notes[i])
    ensures FirstDecision(notes).Some? ==>
      exists i :: 0 <= i < |notes| && DecidingNote(notes[i])
        && FirstDecision(notes) == Some(DecisionFields(notes[i]))
        && (forall j :: 0 <= j < i ==> !DecidingNote(notes[j]))
  {
    FirstDecisionNone(notes);
    if FirstDecision(notes).Some? {
      var i := FirstDecisionIndex(notes);
    }
  }

  /** No decision exactly when no note is deciding. */
  lemma {:induction false} FirstDecisionNone(notes: seq<Note>)
    ensures FirstDecision(notes).None? <==> forall i :: 0 <= i < |notes| ==> !DecidingNote(notes[i])
    decreases |notes|
  {
    if notes != [] && !DecidingNote(notes[0]) {
      FirstDecisionNone(notes[1..]);
      assert FirstDecision(notes) == FirstDecision(notes[1..]);
      assert forall i :: 1 <= i < |notes| ==> notes[i] == notes[1..][i - 1];
    }
  }

  /** The position of the first deciding note, which the decision comes from. */
  lemma {:induction false} FirstDecisionIndex(notes: seq<Note>) returns (i: nat)
    requires FirstDecision(notes).Some?
    ensures i < |notes| && DecidingNote(notes[i]) && FirstDecision(notes) == Some(DecisionFields(notes[i]))
    ensures forall j :: 0 <= j < i ==> !DecidingNote(notes[j])
    decreases |notes|
  {
    if DecidingNote(notes[0]) {
      i := 0;
    } else {
      var k := FirstDecisionIndex(notes[1..]);
      i := k + 1;
      assert notes[i] == notes[1..][k];
      assert forall j :: 1 <= j < i ==> notes[j] == notes[1..][j - 1];
    }
  }

  /** `get_decision` */
  method GetDecision(fetched: Result<seq<Note>, string>, suppressErrors: bool) returns (r: Result<Option<Decision>, string>)
    ensures fetched.Success? ==> r == Success(FirstDecision(fetched.value))
    ensures fetched.Failure? && suppressErrors ==> r == Success(None)
    ensures fetched.Failure? && !suppressErrors ==> r == Failure(fetched.error)
  {
    if fetched.Failure? {
      if suppressErrors {
        return Success(None);
      }
      return Failure(fetched.error);
    }
    var notes := fetched.value;
    var i := 0;
    while i < |notes|
      invariant 0 <= i <= |notes|
      invariant FirstDecision(notes[i..]) == FirstDecision(notes)
    {
      var note := notes[i];
      assert notes[i..][0] == note && notes[i..][1..] == notes[i + 1..];
      if IsDecision(Invitations(note)) {
        var decision := Null;
        var comment := Null;
        if note.content.Obj? {
          var c := note.content.fields;
          decision := ContentValue(c, "decision");
          if !Truthy(decision) {
            decision := ContentValue(c, "recommendation");
          }
          comment := FindFirstValue(c, CommentKeys, Truthy);
        }
        assert Decision(decision, comment, note.mdate) == DecisionFields(note);
        if Truthy(decision) {
          return Success(Some(Decision(decision, comment, note.mdate)));
        }
      }
      i := i + 1;
    }
    return Success(None);
  }

  // ----- status -----

  /** The lower-cased `str()` of the decision value. */
  function DecisionText(d: Decision): (r: string)
    ensures forall i :: 0 <= i < |r| ==> !('A' <= r[i] <= 'Z')
    ensures d.decision.Str? ==> r == Text.Lower(d.decision.s)
  {
    match ScalarText(d.decision)
    case Some(t) => Text.Lower(t)
    case None => ""
  }

  /** The status rule of `check_paper_status`. */
  function Classify(decision: Option<Decision>, reviews: seq<Review>): (status: string)
    ensures status in {"pending", "reviewed", "accepted", "rejected", "decided"}
  {
    if decision.Some? then
      var text := DecisionText(decision.value);
      if Text.Contains(text, "accept") then "accepted"
      else if Text.Contains(text, "reject") then "rejected"
      else "decided"
    else if reviews != [] then "reviewed"
    else "pending"
  }

  /** Each status arises from exactly one situation. */
  lemma ClassifyCases(decision: Option<Decision>, reviews: seq<Review>)
    ensures Classify(decision, reviews) == "pending" <==> decision.None? && reviews == []
    ensures Classify(decision, reviews) == "reviewed" <==> decision.None? && reviews != []
    ensures Classify(decision, reviews) == "accepted" <==>
      decision.Some? && Text.Contains(DecisionText(decision.value), "accept")
    ensures Classify(decision, reviews) == "rejected" <==>
      decision.Some? && !Text.Contains(DecisionText(decision.value), "accept")
      && Text.Contains(DecisionText(decision.value), "reject")
    ensures Classify(decision, reviews) in {"accepted", "rejected", "decided"} <==> decision.Some?
  {
  }

  function Report(reviews: seq<Review>, decision: Option<Decision>): (r: StatusReport)
    ensures r.hasDecision <==> r.status in {"accepted", "rejected", "decided"}
    ensures r.reviewCount == |r.reviews|
    ensures r.status == "reviewed" ==> r.reviewCount > 0
    ensures r.status == Classify(decision, reviews)
    ensures r.hasDecision <==> decision.Some?
    ensures r.reviews == reviews && r.reviewCount == |reviews| && r.decision == decision
  {
    StatusReport(Classify(decision, reviews), reviews, decision, |reviews|, decision.Some?)
  }

  /** `check_paper_status`: two fetches of the forum's notes. */
  method CheckPaperStatus(reviewNotes: Result<seq<Note>, string>, decisionNotes: Result<seq<Note>, string>, suppressErrors: bool)
    returns (r: Result<StatusReport, string>)
    ensures reviewNotes.Success? && decisionNotes.Success? ==>
      r == Success(Report(ReviewsOf(reviewNotes.value), FirstDecision(decisionNotes.value)))
    ensures suppressErrors ==> r.Success?
    ensures suppressErrors ==>
      r == Success(Report(if reviewNotes.Success? then ReviewsOf(reviewNotes.value) else [],
                          if decisionNotes.Success? then FirstDecision(decisionNotes.value) else None))
    ensures !suppressErrors && reviewNotes.Failure? ==> r == Failure(reviewNotes.error)
    ensures !suppressErrors && reviewNotes.Success? && decisionNotes.Failure? ==> r == Failure(decisionNotes.error)
    ensures r.Success? ==> r.value.reviewCount == |r.value.reviews|
  {
    var reviews := GetReviews(reviewNotes, suppressErrors);
    if reviews.Failure? {
      return Failure(reviews.error);
    }
    var decision := GetDecision(decisionNotes, suppressErrors);
    if decision.Failure? {
      return Failure(decision.error);
    }
    return Success(Report(reviews.value, decision.value));
  }

  // ----- paper info -----

  /** `int(note.number)`; `None` where Python raises and the error is swallowed. */
  function IntOf(j: Json): (r: Option<int>)
    ensures j.Num? ==> r == Some(j.n)
    ensures j.Null? || j.Arr? || j.Obj? ==> r.None?
  {
    match j
    case Num(n) => Some(n)
    case Bool(b) => Some(if b then 1 else 0)
    case Str(s) => Text.ParseInt(s)
    case _ => None
  }

  function JsonOf(o: Option<string>): Json {
    match o
    case Some(s) => Str(s)
    case None => Null
  }

  /** The venue `get_paper_info` reports for a note with dict content;
      `Failure` is the TypeError of cleaning a truthy venue that is not text. */
  function VenueOf(c: map<string, Json>, domain: Option<string>): (r: Result<Json, string>)
    ensures Truthy(ContentValue(c, "venue")) && ContentValue(c, "venue").Str? ==>
      r == Success(if CleanVenueName(ContentValue(c, "venue").s) != ""
                   then Str(CleanVenueName(ContentValue(c, "venue").s))
                   else JsonOf(ExtractVenueFromDomain(domain)))
    ensures !Truthy(ContentValue(c, "venue")) && !Truthy(ContentValue(c, "venueid")) ==>
      r == Success(JsonOf(ExtractVenueFromDomain(domain)))
    ensures r.Failure? <==> var v := if Truthy(ContentValue(c, "venue")) then ContentValue(c, "venue") else ContentValue(c, "venueid");
      Truthy(v) && !v.Str?
  {
    var v0 := ContentValue(c, "venue");
    var v := if Truthy(v0) then v0 else ContentValue(c, "venueid");
    if Truthy(v) && !v.Str? then Failure("expected string or bytes-like object")
    else
      var cleaned := if Truthy(v) then Str(CleanVenueName(v.s)) else v;
      Success(if Truthy(cleaned) then cleaned else JsonOf(ExtractVenueFromDomain(domain)))
  }

  /** `get_paper_info`; a failed fetch re-raises its error. */
  function GetPaperInfo(fetched: Result<Note, string>): (r: Result<PaperInfo, string>)
    ensures fetched.Failure? ==> r == Failure(fetched.error)
    ensures r.Success? ==> |r.value.authors| <= 5 && r.value.id == fetched.value.id
    ensures r.Success? ==> r.value.submissionNumber == IntOf(fetched.value.number)
    ensures r.Success? && !fetched.value.content.Obj? ==> r.value.title == Null && r.value.venue == Null && r.value.authors == []
    ensures r.Success? && fetched.value.content.Obj? ==>
      r.value.title == ContentValue(fetched.value.content.fields, "title")
      && VenueOf(fetched.value.content.fields, fetched.value.domain) == Success(r.value.venue)
    ensures r.Failure? <==>
      fetched.Failure? || (fetched.value.content.Obj? && VenueOf(fetched.value.content.fields, fetched.value.domain).Failure?)
  {
    if fetched.Failure? then Failure(fetched.error)
    else
      var note := fetched.value;
      match note.content
      case Obj(c) =>
        var venue := VenueOf(c, note.domain);
        if venue.Failure? then Failure(venue.error)
        else
          var authors := ContentValue(c, "authors");
          Success(PaperInfo(note.id, ContentValue(c, "title"), venue.value,
                            if authors.Arr? then (if |authors.items| <= 5 then authors.items else authors.items[..5]) else [],
                            note.forum, IntOf(note.number)))
      case _ => Success(PaperInfo(note.id, Null, Null, [], note.forum, IntOf(note.number)))
  }

  /** The kept authors are the first five of the list. */
  lemma AuthorsArePrefix(fetched: Result<Note, string>)
    requires GetPaperInfo(fetched).Success? && fetched.value.content.Obj?
    requires ContentValue(fetched.value.content.fields, "authors").Arr?
    ensures var items := ContentValue(fetched.value.content.fields, "authors").items;
      var authors := GetPaperInfo(fetched).value.authors;
      |authors| == (if |items| < 5 then |items| else 5) && authors == items[..|authors|]
  {
  }
}
