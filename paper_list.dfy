/** `PaperList`: the admin's list of monitored papers, grouped by venue,
    with deletion and a manual check. Awaited API results are inputs; a
    handler's effect is its final state. */
module PaperList {
  import opened Wrappers
  import ApiClient
  import Grouping

  /** The fields of a listed paper that the list shows. */
  datatype PaperItem = PaperItem(id: int, openreviewId: string, title: Option<string>, venue: Option<string>, status: string)

  const UnknownVenue: string := "Unknown Venue"
  const DefaultBadge: string := "bg-gray-100 text-gray-800"
  const ForumPrefix: string := "https://openreview.net/forum?id="

  /** The colour classes of each known status. */
  const BadgeColors: map<string, string> := map[
    "pending" := "bg-yellow-100 text-yellow-800",
    "reviewed" := "bg-blue-100 text-blue-800",
    "accepted" := "bg-green-100 text-green-800",
    "rejected" := "bg-red-100 text-red-800",
    "decided" := "bg-purple-100 text-purple-800"]

  /** `getStatusBadge`: a known status has its own colours; anything else is
      grey. */
  function StatusBadge(status: string): (r: string)
    ensures status in BadgeColors ==> r == BadgeColors[status]
    ensures status !in BadgeColors ==> r == DefaultBadge
  {
    if status in BadgeColors then BadgeColors[status] else DefaultBadge
  }

  /** The five known statuses get five different badges, none of them grey. */
  lemma BadgesDistinct(a: string, b: string)
    requires a in BadgeColors && b in BadgeColors && a != b
    ensures StatusBadge(a) != StatusBadge(b)
    ensures StatusBadge(a) != DefaultBadge
  {
    assert BadgeColors.Keys == {"pending", "reviewed", "accepted", "rejected", "decided"};
  }

  /** `paper.venue || 'Unknown Venue'`: a missing or empty venue is grouped
      under the fallback label. */
  function VenueLabel(p: PaperItem): (r: string)
    ensures r != ""
    ensures p.venue.Some? && p.venue.value != "" ==> r == p.venue.value
    ensures p.venue.None? || p.venue.value == "" ==> r == UnknownVenue
  {
    if p.venue.Some? && p.venue.value != "" then p.venue.value else UnknownVenue
  }

  /** `paper.title || paper.openreview_id` */
  function DisplayTitle(p: PaperItem): (r: string)
    ensures p.title.Some? && p.title.value != "" ==> r == p.title.value
    ensures p.title.None? || p.title.value == "" ==> r == p.openreviewId
  {
    if p.title.Some? && p.title.value != "" then p.title.value else p.openreviewId
  }

  /** The paper's forum page. */
  function ForumLink(p: PaperItem): (r: string)
    ensures |r| == |ForumPrefix| + |p.openreviewId|
    ensures r[..|ForumPrefix|] == ForumPrefix && r[|ForumPrefix|..] == p.openreviewId
  {
    ForumPrefix + p.openreviewId
  }

  /** `Object.entries(groupedPapers)`: one entry per venue label, listed
      once each in order of first appearance; each listed paper sits in
      exactly the entry of its own label, in list order, and no paper is lost
      or repeated. */
  function GroupedPapers(papers: seq<PaperItem>): (r: seq<(string, seq<PaperItem>)>)
    ensures forall i, j :: 0 <= i < j < |r| ==> r[i].0 != r[j].0
    ensures forall p, i :: p in papers && 0 <= i < |r| ==> (p in r[i].1 <==> r[i].0 == VenueLabel(p))
    ensures forall p :: p in papers ==> exists i :: 0 <= i < |r| && r[i].0 == VenueLabel(p)
    ensures forall i :: 0 <= i < |r| ==> r[i].1 == Grouping.Group(papers, VenueLabel, r[i].0)
    ensures Grouping.SumSizes(papers, VenueLabel, Grouping.Keys(papers, VenueLabel)) == |papers|
  {
    Grouping.EntriesPartition(papers, VenueLabel);
    Grouping.Entries(papers, VenueLabel)
  }

  /** `handleDelete`: nothing is sent unless the admin confirms; the list is
      fetched again, and the parent told, only after a delete without error. */
  function HandleDelete(paperId: int, confirmed: bool, result: ApiClient.ApiResponse<()>): (e: ApiClient.Followup)
    ensures e.request.Some? <==> confirmed
    ensures e.request.Some? ==> e.request.value == ApiClient.DeletePaper(paperId)
    ensures e.reload <==> confirmed && !ApiClient.ErrorShown(result)
  {
    if !confirmed then ApiClient.Followup(None, false)
    else ApiClient.Followup(Some(ApiClient.DeletePaper(paperId)), !ApiClient.ErrorShown(result))
  }

  class PaperListState {
    var papers: seq<PaperItem>
    var loading: bool

    /** The first render: no papers, loading. */
    constructor ()
      ensures papers == [] && loading
    {
      papers := [];
      loading := true;
    }

    /** `fetchPapers`: an error keeps the list shown; otherwise the list is
        the data, or empty when there is none. Loading ends either way. */
    method FetchPapers(result: ApiClient.ApiResponse<seq<PaperItem>>)
      modifies this
      ensures !loading
      ensures ApiClient.ErrorShown(result) ==> papers == old(papers)
      ensures !ApiClient.ErrorShown(result) ==> papers == (if result.Data? then result.data else [])
    {
      loading := true;
      if ApiClient.ErrorShown(result) {
      } else if result.Data? {
        papers := result.data;
      } else {
        papers := [];
      }
      loading := false;
    }
  }
}
