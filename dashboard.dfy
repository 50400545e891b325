/** The first admin dashboard page: a food table filtered by status tab and a
    search over the concatenated title, location and poster name, the five
    most recent claims, the rescue rate and the five busiest locations. */
module Dashboard {
  import opened Wrappers
  import opened FoodRecord
  import opened DashboardCommon

  /** The search matches when the lowercased query occurs anywhere in the
      lowercased concatenation of title, location and poster name. */
  predicate SearchHit(f: Listed, search: string) {
    Contains(Lower(f.title + f.location + PosterName(f)), Lower(search))
  }

  /** `rows`: the fetched foods on the chosen tab that match the search, in
      fetched order. */
  function Rows(foods: seq<Listed>, tab: Tab, search: string): (r: seq<Listed>)
    ensures |r| <= |foods|
    ensures forall f :: f in r <==> f in foods && OnTab(tab, f) && SearchHit(f, search)
  {
    Keep(foods, f => OnTab(tab, f) && SearchHit(f, search))
  }

  /** With the `all` tab and an empty search every fetched food is listed, in
      fetched order. */
  lemma RowsShowEverything(foods: seq<Listed>)
    ensures Rows(foods, AllTab, "") == foods
  {
    forall f | f in foods ensures OnTab(AllTab, f) && SearchHit(f, "") {
      ContainsEmpty(Lower(f.title + f.location + PosterName(f)));
    }
    KeepAll(foods, f => OnTab(AllTab, f) && SearchHit(f, ""));
  }

  /** `claims`: the first five taken foods in fetched order. */
  function Claims(foods: seq<Listed>): (r: seq<Listed>)
    ensures |r| <= 5
    ensures forall x :: x in r ==> x in foods && x.status == Taken
    ensures var taken := Keep(foods, IsTaken);
      r == taken[..if |taken| <= 5 then |taken| else 5]
  {
    FirstTaken(foods, 5)
  }

  /** `locs`: the histogram reduce, sorted by count and cut to five entries. */
  method Locs(foods: seq<Listed>) returns (locs: seq<LocCount>)
    ensures IsRanking(locs, foods, 5)
  {
    locs := RankLocations(foods, 5);
  }

  /** `doDelete`: nothing happens when the confirm dialog is declined.
      Otherwise the DELETE request is sent; success starts a refetch and
      failure alerts "Failed". Either way the list and stats are left to the
      next fetch and `deleting` ends cleared. */
  method DoDelete(p: PanelState, id: int, confirmed: bool, response: DeleteResponse)
    returns (sent: bool, refetch: bool, alert: Option<string>)
    modifies p
    ensures sent == confirmed
    ensures refetch <==> confirmed && response.Deleted?
    ensures alert == (if confirmed && response.DeleteFailed? then Some("Failed") else None)
    ensures !confirmed ==> unchanged(p)
    ensures confirmed ==> p.deleting.None?
    ensures p.foods == old(p.foods) && p.stats == old(p.stats) && p.loading == old(p.loading)
  {
    sent, refetch, alert := false, false, None;
    if !confirmed {
      return;
    }
    p.deleting := Some(id);
    sent := true;
    match response {
      case Deleted => refetch := true;
      case DeleteFailed(_) => alert := Some("Failed");
    }
    p.deleting := None;
  }
}
